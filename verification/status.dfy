/**
 * The status shown for a job (`getStatus` in both the dashboard and the
 * `JobStatus` card) and the build-duration text (`formatDuration`).
 */
module JobStatus {
  import opened Wrappers
  import opened Strings

  /** The badge a job gets; labels, variants and icons are presentation and not modelled. */
  datatype Status = FolderStatus | Success | Failure | InProgress | Disabled | Unstable | Unknown

  /** None of the fixed colors the mapping tests contains "anime". */
  lemma FixedColorsNotAnimated()
    ensures !Contains("blue", "anime") && !Contains("red", "anime")
    ensures !Contains("disabled", "anime") && !Contains("yellow", "anime")
  {
    ContainsNotLonger("blue", "anime");
    ContainsNotLonger("red", "anime");
    DisabledNotAnimated();
    YellowNotAnimated();
  }

  lemma DisabledNotAnimated()
    ensures !Contains("disabled", "anime")
  {
    var s := "disabled";
    ContainsNotLonger(s[4..], "anime");
    assert s[3..][1..] == s[4..];
    assert s[3..][..5][1] != "anime"[1];
    assert !Contains(s[3..], "anime");
    assert s[2..][1..] == s[3..] && s[2..][..5][0] != 'a';
    assert !Contains(s[2..], "anime");
    assert s[1..][1..] == s[2..] && s[1..][..5][0] != 'a';
    assert !Contains(s[1..], "anime");
    assert s[..5][0] != 'a';
  }

  lemma YellowNotAnimated()
    ensures !Contains("yellow", "anime")
  {
    MissingFirstCharNotContained("yellow", "anime");
  }

  /**
   * The dashboard's `getStatus(color)`: the tests are tried in order, so
   * "blue_anime" is in progress while "blue" is a success.
   */
  function ColorStatus(color: string): (s: Status)
    ensures s != FolderStatus
    ensures s == Success <==> color == "blue"
    ensures s == Failure <==> color == "red"
    ensures s == InProgress <==> Contains(color, "anime")
    ensures s == Disabled <==> color == "disabled"
    ensures s == Unstable <==> color == "yellow"
  {
    FixedColorsNotAnimated();
    if color == "blue" then Success
    else if color == "red" then Failure
    else if Contains(color, "anime") then InProgress
    else if color == "disabled" then Disabled
    else if color == "yellow" then Unstable
    else Unknown
  }

  /**
   * The card's `getStatus(color, isFolder)`: a folder is shown as a folder
   * whatever its color, and a missing or empty color is unknown.
   */
  function FolderAwareStatus(color: Option<string>, isFolder: bool): (s: Status)
    ensures isFolder <==> s == FolderStatus
    ensures !isFolder && (color == None || color == Some("")) ==> s == Unknown
  {
    if isFolder then FolderStatus
    else if color == None || color.value == "" then Unknown
    else if color.value == "blue" then Success
    else if color.value == "red" then Failure
    else if Contains(color.value, "anime") then InProgress
    else if color.value == "disabled" then Disabled
    else if color.value == "yellow" then Unstable
    else Unknown
  }

  /** For jobs that are not folders, the two mappings agree; an absent color counts as "". */
  lemma StatusMappingsAgree(color: Option<string>)
    ensures FolderAwareStatus(color, false) == ColorStatus(color.GetOr(""))
  {
    ContainsNotLonger("", "anime");
  }

  /** What `formatDuration` prints: the "no information" text, or minutes and seconds. */
  datatype DurationText = NoInformation | MinutesSeconds(minutes: int, seconds: int)

  /** JavaScript's `%`, whose result takes the sign of the dividend. */
  function JsRemainder(a: int, b: int): int
    requires b > 0
  {
    if a >= 0 then a % b else -((-a) % b)
  }

  /**
   * `formatDuration(duration)` on a whole number of milliseconds. Both
   * `Math.floor` divisions are floor divisions, which is what `/` computes
   * for a positive divisor.
   */
  function FormatDuration(duration: int): (t: DurationText)
    ensures t == NoInformation <==> duration == 0
    ensures duration > 0 ==>
              && 0 <= t.seconds < 60
              && 0 <= t.minutes
              && t.minutes * 60 + t.seconds == duration / 1000
  {
    if duration == 0 then NoInformation
    else
      var seconds := duration / 1000;
      var minutes := seconds / 60;
      MinutesSeconds(minutes, JsRemainder(seconds, 60))
  }
}
