/** The terminal dashboard's model-level parts (src/ui.ts): text truncation,
    duration formatting, the state snapshot `update` builds from the workers
    and granules, and the line editor behind the stdin key handler. Drawing
    to the terminal is not part of this model. */
module Ui {
  import opened Text
  import opened Granules

  // ---------------------------------------------------------------------
  // truncate
  // ---------------------------------------------------------------------

  /** The ellipsis appended to a shortened line. */
  const Ellipsis: char := '\U{2026}'

  /** `str.replace(/\n/g, " ")`: every line feed becomes a space. */
  function SpaceNewlines(s: string): (r: string)
    ensures |r| == |s|
    ensures forall i :: 0 <= i < |r| ==> r[i] != '\n'
    ensures forall i :: 0 <= i < |r| && s[i] != '\n' ==> r[i] == s[i]
    ensures forall i :: 0 <= i < |s| && s[i] == '\n' ==> r[i] == ' '
  {
    seq(|s|, i requires 0 <= i < |s| => if s[i] == '\n' then ' ' else s[i])
  }

  /** `s.slice(0, end)`: a negative end counts from the back of the string,
      and the end is clamped to the string. */
  function SliceTo(s: string, end: int): (r: string)
    ensures |r| <= |s| && r == s[..|r|]
    ensures end >= 0 ==> |r| == if end <= |s| then end else |s|
    ensures end < 0 ==> |r| == if |s| + end >= 0 then |s| + end else 0
  {
    if end < 0 then s[..if |s| + end >= 0 then |s| + end else 0]
    else s[..if end <= |s| then end else |s|]
  }

  /** The one-line form of `str` that `truncate` starts from. */
  function SingleLine(str: string): string
  {
    Trim(SpaceNewlines(str))
  }

  /** A line as `truncate` returns it: no line feed, and no whitespace at
      either end. */
  predicate Tidy(t: string)
  {
    && (forall i :: 0 <= i < |t| ==> t[i] != '\n')
    && (t == [] || (!IsWhitespace(t[0]) && !IsWhitespace(t[|t| - 1])))
  }

  /** The length cut of `truncate`: `t` itself when it fits, else its first
      `maxLen - 1` characters (`t.slice(0, maxLen - 1)`) and an ellipsis. */
  function Shorten(t: string, maxLen: int): string
  {
    if |t| <= maxLen then t else SliceTo(t, maxLen - 1) + [Ellipsis]
  }

  /** `truncate(str, maxLen)`: the trimmed one-line text when it fits, else
      its first `maxLen - 1` characters and an ellipsis. */
  function Truncate(str: string, maxLen: int): (r: string)
    ensures |SingleLine(str)| <= maxLen ==> r == SingleLine(str)
    ensures |SingleLine(str)| > maxLen >= 1 ==>
              |r| == maxLen && r == SingleLine(str)[..maxLen - 1] + [Ellipsis]
  {
    Shorten(SingleLine(str), maxLen)
  }

  /** The one-line text has no line feed and no whitespace at either end. */
  lemma SingleLineShape(str: string)
    ensures Tidy(SingleLine(str))
  {
    var s := SpaceNewlines(str);
    var k := TrimOffset(s);
  }

  lemma ShortenFits(t: string, maxLen: int)
    requires maxLen >= 1 && Tidy(t)
    ensures |Shorten(t, maxLen)| <= maxLen && Tidy(Shorten(t, maxLen))
    ensures forall i :: 0 <= i < |Shorten(t, maxLen)| - 1 ==> i < |t| && Shorten(t, maxLen)[i] == t[i]
  {
    if |t| > maxLen {
      var r := Shorten(t, maxLen);
      assert r == t[..maxLen - 1] + [Ellipsis];
      assert r[|r| - 1] == Ellipsis && !IsWhitespace(Ellipsis);
      assert r[0] == if maxLen > 1 then t[0] else Ellipsis;
    }
  }

  /** With a positive limit the result fits the limit, is a single line,
      does not start or end with whitespace, and begins like the one-line
      text. */
  lemma TruncateFits(str: string, maxLen: int)
    requires maxLen >= 1
    ensures |Truncate(str, maxLen)| <= maxLen && Tidy(Truncate(str, maxLen))
    ensures forall i :: 0 <= i < |Truncate(str, maxLen)| - 1 ==>
              i < |SingleLine(str)| && Truncate(str, maxLen)[i] == SingleLine(str)[i]
  {
    SingleLineShape(str);
    ShortenFits(SingleLine(str), maxLen);
  }

  /** Truncating twice with the same positive limit is truncating once. */
  lemma {:induction false} TruncateIdempotent(str: string, maxLen: int)
    requires maxLen >= 1
    ensures Truncate(Truncate(str, maxLen), maxLen) == Truncate(str, maxLen)
  {
    var r := Truncate(str, maxLen);
    TruncateFits(str, maxLen);
    assert SpaceNewlines(r) == r;
    TrimUnchanged(r);
    assert SingleLine(r) == r;
  }

  // ---------------------------------------------------------------------
  // formatDuration
  // ---------------------------------------------------------------------

  /** The largest two units a duration is shown in. */
  datatype Duration =
    | HoursMinutes(hours: int, minutes: int)
    | MinutesSeconds(minutes: int, seconds: int)
    | SecondsOnly(seconds: int)

  /** The units `formatDuration(ms)` shows: whole seconds, minutes and hours
      (floor division, which for a positive divisor is Dafny's `/`), the
      largest non-zero unit first and the next one as a remainder. */
  function SplitDuration(ms: int): (d: Duration)
    ensures d.HoursMinutes? ==>
              d.hours >= 1 && 0 <= d.minutes < 60 && ms / 1000 / 60 == d.hours * 60 + d.minutes
    ensures d.MinutesSeconds? ==>
              1 <= d.minutes < 60 && 0 <= d.seconds < 60 && ms / 1000 == d.minutes * 60 + d.seconds
    ensures d.SecondsOnly? ==> d.seconds == ms / 1000 && d.seconds < 60
  {
    var seconds := ms / 1000;
    var minutes := seconds / 60;
    var hours := minutes / 60;
    if hours > 0 then HoursMinutes(hours, minutes % 60)
    else if minutes > 0 then MinutesSeconds(minutes, seconds % 60)
    else SecondsOnly(seconds)
  }

  /** The whole seconds a shown duration stands for. */
  function ShownSeconds(d: Duration): int
  {
    match d
    case HoursMinutes(h, m) => h * 3600 + m * 60
    case MinutesSeconds(m, s) => m * 60 + s
    case SecondsOnly(s) => s
  }

  function Render(d: Duration): string
  {
    match d
    case HoursMinutes(h, m) => IntToString(h) + "h " + IntToString(m) + "m"
    case MinutesSeconds(m, s) => IntToString(m) + "m " + IntToString(s) + "s"
    case SecondsOnly(s) => IntToString(s) + "s"
  }

  /** `formatDuration(ms)`: `"{h}h {m}m"`, `"{m}m {s}s"` or `"{s}s"`. */
  function FormatDuration(ms: int): string
  {
    Render(SplitDuration(ms))
  }

  /** The last unit shown is seconds below an hour and minutes from an hour
      on, whatever the sign of `ms`. */
  lemma FormatDurationUnit(ms: int)
    ensures |FormatDuration(ms)| >= 2
    ensures ms / 1000 < 3600 ==> FormatDuration(ms)[|FormatDuration(ms)| - 1] == 's'
    ensures ms / 1000 >= 3600 ==> FormatDuration(ms)[|FormatDuration(ms)| - 1] == 'm'
  {
  }

  /** What is shown is the elapsed time cut down to its smallest shown unit:
      exact to the second below an hour, to the minute from an hour on. */
  lemma DurationTruncates(ms: int)
    ensures var d := SplitDuration(ms);
      && ShownSeconds(d) <= ms / 1000
      && ms / 1000 < ShownSeconds(d) + (if d.HoursMinutes? then 60 else 1)
  {
  }

  // ---------------------------------------------------------------------
  // update
  // ---------------------------------------------------------------------

  /** Retries after which an unclaimed granule is shown as failed. */
  const MaxRetries := 3

  /** An active worker as `update` receives it. */
  datatype WorkerEntry = WorkerEntry(workerId: string, granuleId: string, startedAt: int)

  /** One line of the worker list. */
  datatype WorkerInfo = WorkerInfo(
    workerId: string,
    granuleId: string,
    granuleClass: string,
    granuleContent: string,
    startedAt: int)

  datatype GranuleCounts = GranuleCounts(
    unclaimed: nat, claimed: nat, completed: nat, failed: nat, total: nat)

  /** What the dashboard draws. */
  datatype UiState = UiState(
    workers: seq<WorkerInfo>,
    granules: GranuleCounts,
    implementedReport: Option<string>,
    inputLine: string)

  predicate IsFailed(g: Granule)
  {
    g.state == Unclaimed && RetriesOf(g) >= MaxRetries
  }

  predicate IsQueued(g: Granule)
  {
    g.state == Unclaimed && RetriesOf(g) < MaxRetries
  }

  predicate IsClaimed(g: Granule)
  {
    g.state == Claimed
  }

  predicate IsCompleted(g: Granule)
  {
    g.state == Completed
  }

  /** `gs.filter(p).length`. */
  function Count(gs: seq<Granule>, p: Granule -> bool): (n: nat)
    ensures n <= |gs|
  {
    if gs == [] then 0 else Count(gs[..|gs| - 1], p) + (if p(gs[|gs| - 1]) then 1 else 0)
  }

  /** The counts `update` shows. */
  function Tally(gs: seq<Granule>): GranuleCounts
  {
    GranuleCounts(Count(gs, IsQueued), Count(gs, IsClaimed), Count(gs, IsCompleted),
                  Count(gs, IsFailed), |gs|)
  }

  /** Every granule is counted exactly once: queued, failed, claimed and
      completed add up to the total. */
  lemma {:induction false} TallyPartition(gs: seq<Granule>)
    ensures var c := Tally(gs);
      c.unclaimed + c.failed + c.claimed + c.completed == c.total
    decreases |gs|
  {
    if gs != [] {
      TallyPartition(gs[..|gs| - 1]);
    }
  }

  /** Whether `g` has the id `id`. */
  function HasId(id: string): Granule -> bool
  {
    (g: Granule) => g.id == id
  }

  /** The worker line for `w`: the class name and content of the first
      granule with its granule id, or "unknown" and "" when there is none. */
  function InfoFor(w: WorkerEntry, gs: seq<Granule>): (r: WorkerInfo)
    ensures r.workerId == w.workerId && r.granuleId == w.granuleId && r.startedAt == w.startedAt
  {
    match FindFirst(gs, HasId(w.granuleId))
    case None => WorkerInfo(w.workerId, w.granuleId, "unknown", "", w.startedAt)
    case Some(i) =>
      WorkerInfo(w.workerId, w.granuleId, ClassName(gs[i].kind), gs[i].content, w.startedAt)
  }

  /** A worker line shows the first granule filed under the worker's
      granule id, and the defaults when no granule has that id. */
  lemma InfoForShowsGranule(w: WorkerEntry, gs: seq<Granule>)
    ensures (forall i :: 0 <= i < |gs| ==> gs[i].id != w.granuleId) ==>
              InfoFor(w, gs).granuleClass == "unknown" && InfoFor(w, gs).granuleContent == ""
    ensures forall i :: 0 <= i < |gs| && gs[i].id == w.granuleId && IdAbsentBefore(gs, w.granuleId, i) ==>
              InfoFor(w, gs).granuleClass == ClassName(gs[i].kind)
              && InfoFor(w, gs).granuleContent == gs[i].content
  {
    var found := FindFirst(gs, HasId(w.granuleId));
    if found.Some? {
      var k := found.value;
      assert gs[k].id == w.granuleId;
      assert forall j :: 0 <= j < k ==> gs[j].id != w.granuleId;
      forall i | 0 <= i < |gs| && gs[i].id == w.granuleId && IdAbsentBefore(gs, w.granuleId, i)
        ensures i == k
      {
        assert IdAbsentBefore(gs, w.granuleId, i) && gs[k].id == w.granuleId;
      }
    } else {
      assert forall i :: 0 <= i < |gs| ==> !HasId(w.granuleId)(gs[i]);
    }
  }

  /** No granule before position `i` has the id `id`. */
  predicate IdAbsentBefore(gs: seq<Granule>, id: string, i: int)
    requires i <= |gs|
  {
    forall j :: 0 <= j < i ==> gs[j].id != id
  }

  /** The worker list: one line per worker, in the order given. */
  method WorkerInfos(workers: seq<WorkerEntry>, gs: seq<Granule>) returns (infos: seq<WorkerInfo>)
    ensures |infos| == |workers|
    ensures forall i :: 0 <= i < |workers| ==> infos[i] == InfoFor(workers[i], gs)
  {
    infos := [];
    for k := 0 to |workers|
      invariant |infos| == k
      invariant forall i :: 0 <= i < k ==> infos[i] == InfoFor(workers[i], gs)
    {
      infos := infos + [InfoFor(workers[k], gs)];
    }
  }

  /** The content of the first granule of class `Implemented`, if any. */
  function ImplementedReport(gs: seq<Granule>): (r: Option<string>)
    ensures r.None? <==> forall i :: 0 <= i < |gs| ==> gs[i].kind != Implemented
    ensures r.Some? ==>
              exists i :: (0 <= i < |gs| && gs[i].kind == Implemented && r.value == gs[i].content
                           && forall j :: 0 <= j < i ==> gs[j].kind != Implemented)
  {
    match FindFirst(gs, (g: Granule) => g.kind == Implemented)
    case None => None
    case Some(i) => Some(gs[i].content)
  }

  // ---------------------------------------------------------------------
  // The key handler
  // ---------------------------------------------------------------------

  /** What a keystroke asks the application to do. */
  datatype KeyAction = NoAction | ExitRequested | Command(text: string)

  /** A keystroke's effect: the new input line and the action raised. */
  datatype KeyOutcome = KeyOutcome(line: string, action: KeyAction)

  const CtrlC: string := "\U{0003}"
  const Delete: string := "\U{007F}"

  function LowerAscii(c: char): char
  {
    if 'A' <= c <= 'Z' then (c as int + 32) as char else c
  }

  /** `s.toLowerCase() === "exit"`. */
  predicate IsExitWord(s: string)
  {
    |s| == 4 && LowerAscii(s[0]) == 'e' && LowerAscii(s[1]) == 'x'
    && LowerAscii(s[2]) == 'i' && LowerAscii(s[3]) == 't'
  }

  /** `key.length === 1 && key >= " "`; a character beyond U+FFFF is two
      UTF-16 units long and so never counts. */
  predicate IsPrintable(key: string)
  {
    |key| == 1 && ' ' <= key[0] <= '\U{FFFF}'
  }

  predicate IsEnter(key: string)
  {
    key == "\r" || key == "\n"
  }

  predicate IsBackspace(key: string)
  {
    key == Delete || key == "\U{0008}"
  }

  /** One keystroke on the input line `line`. */
  function KeyStep(line: string, key: string): (r: KeyOutcome)
    ensures key == CtrlC ==> r == KeyOutcome(line, ExitRequested)
    ensures IsEnter(key) ==> r.line == ""
    ensures IsEnter(key) ==>
              (r.action == ExitRequested <==> IsExitWord(Trim(line)))
              && (r.action == NoAction <==> Trim(line) == [])
              && (r.action.Command? <==> Trim(line) != [] && !IsExitWord(Trim(line)))
              && (r.action.Command? ==> r.action.text == Trim(line))
    ensures IsBackspace(key) ==>
              r.action == NoAction && (line == [] ==> r.line == [])
              && (line != [] ==> r.line == line[..|line| - 1])
    ensures key != CtrlC && !IsEnter(key) && !IsBackspace(key) ==>
              r.action == NoAction
              && (IsPrintable(key) ==> r.line == line + key)
              && (!IsPrintable(key) ==> r.line == line)
  {
    if key == CtrlC then KeyOutcome(line, ExitRequested)
    else if IsEnter(key) then
      var cmd := Trim(line);
      KeyOutcome("", if IsExitWord(cmd) then ExitRequested else if cmd != [] then Command(cmd) else NoAction)
    else if IsBackspace(key) then KeyOutcome(SliceTo(line, -1), NoAction)
    else if IsPrintable(key) then KeyOutcome(line + key, NoAction)
    else KeyOutcome(line, NoAction)
  }

  /** Typing a printable character (other than DEL, which is backspace)
      and then backspace restores the line. */
  lemma TypeThenErase(line: string, key: string)
    requires IsPrintable(key) && key != Delete
    ensures KeyStep(KeyStep(line, key).line, Delete).line == line
  {
    assert (line + key)[..|line|] == line;
  }

  /** Enter sends the trimmed line as a command unless it is "exit" or
      blank, and leaves an empty line: a second Enter does nothing. */
  lemma EnterTwice(line: string)
    ensures KeyStep(KeyStep(line, "\r").line, "\r") == KeyOutcome("", NoAction)
  {
    assert Trim("") == "";
  }

  class UIManager {
    var inputLine: string
    var currentState: UiState

    constructor ()
      ensures inputLine == ""
      ensures currentState == UiState([], GranuleCounts(0, 0, 0, 0, 0), None, "")
    {
      inputLine := "";
      currentState := UiState([], GranuleCounts(0, 0, 0, 0, 0), None, "");
    }

    /** The stdin handler: edits the input line, mirrors it into the drawn
        state, and returns what the application is asked to do (the
        `onExit` or `onCommand` callback). */
    method HandleKey(key: string) returns (action: KeyAction)
      modifies this
      ensures inputLine == KeyStep(old(inputLine), key).line
      ensures action == KeyStep(old(inputLine), key).action
      ensures key == CtrlC || (!IsEnter(key) && !IsBackspace(key) && !IsPrintable(key)) ==>
                currentState == old(currentState)
      ensures !(key == CtrlC || (!IsEnter(key) && !IsBackspace(key) && !IsPrintable(key))) ==>
                currentState == old(currentState).(inputLine := inputLine)
    {
      action := NoAction;
      if key == CtrlC {
        action := ExitRequested;
        return;
      }
      if key == "\r" || key == "\n" {
        var cmd := Trim(inputLine);
        inputLine := "";
        currentState := currentState.(inputLine := "");
        if IsExitWord(cmd) {
          action := ExitRequested;
        } else if cmd != [] {
          action := Command(cmd);
        }
        return;
      }
      if key == Delete || key == "\U{0008}" {
        inputLine := SliceTo(inputLine, -1);
        currentState := currentState.(inputLine := inputLine);
        return;
      }
      if IsPrintable(key) {
        inputLine := inputLine + key;
        currentState := currentState.(inputLine := inputLine);
      }
    }

    /** Rebuilds the drawn state from the active workers (in the map's
        order) and the granule list; the input line is kept. */
    method Update(workers: seq<WorkerEntry>, gs: seq<Granule>)
      modifies this
      ensures inputLine == old(inputLine)
      ensures |currentState.workers| == |workers|
      ensures forall i :: 0 <= i < |workers| ==> currentState.workers[i] == InfoFor(workers[i], gs)
      ensures currentState.granules == Tally(gs)
      ensures currentState.implementedReport == ImplementedReport(gs)
      ensures currentState.inputLine == inputLine
    {
      var infos := WorkerInfos(workers, gs);
      currentState := UiState(infos, Tally(gs), ImplementedReport(gs), inputLine);
    }
  }
}
