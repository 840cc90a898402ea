/** The session log (src/session-log.ts): a list of work sessions kept in a
    JSON file, each with a start time and, once ended, an end time. The file
    is modelled by what reading it yields (`LogFile`), each write by a ghost
    copy of what was written and a ghost count of writes, and `Date.now()` by
    a `now` parameter. */
module SessionLogging {
  import opened Text

  /** One session; `endedAt == None` means the session is still running. */
  datatype Session = Session(startedAt: int, endedAt: Option<int>)

  /** What reading and parsing the log file yields. */
  datatype LogFile =
    | Absent
    | Unreadable
    | Contents(sessions: seq<Session>)

  predicate IsActive(s: Session)
  {
    s.endedAt.None?
  }

  /** Whether some session of `log` is still running. */
  predicate AnyActive(log: seq<Session>)
  {
    exists i :: 0 <= i < |log| && IsActive(log[i])
  }

  /** At most one session is running at a time. */
  predicate AtMostOneActive(log: seq<Session>)
  {
    forall i, j :: 0 <= i < |log| && 0 <= j < |log| && IsActive(log[i]) && IsActive(log[j]) ==> i == j
  }

  /** The sessions held after loading `file`: its list when it parses, and
      the empty list when it is absent or does not parse. */
  function Loaded(file: LogFile): (r: seq<Session>)
    ensures file.Contents? ==> r == file.sessions
    ensures !file.Contents? ==> r == []
  {
    match file
    case Contents(sessions) => sessions
    case _ => []
  }

  /** The log after starting a session at `now`: unchanged while one is
      running, otherwise with a new running session appended. */
  function Started(log: seq<Session>, now: int): seq<Session>
  {
    if AnyActive(log) then log else log + [Session(now, None)]
  }

  /** The log after ending the running session at `now`: the first running
      session gets `now` as its end time; without one, nothing changes. */
  function Ended(log: seq<Session>, now: int): seq<Session>
  {
    match FindFirst(log, IsActive)
    case None => log
    case Some(i) => log[i := log[i].(endedAt := Some(now))]
  }

  /** `after` continues `before`: no session is dropped or reordered, start
      times never change, and a session that has ended keeps its end time. */
  predicate Continues(before: seq<Session>, after: seq<Session>)
  {
    |before| <= |after|
    && forall i :: 0 <= i < |before| ==>
         after[i].startedAt == before[i].startedAt
         && (!IsActive(before[i]) ==> after[i] == before[i])
  }

  /** After `startSession` a session is running, and there is still at most
      one; a new one is added exactly when none was running. */
  lemma StartKeepsOneActive(log: seq<Session>, now: int)
    requires AtMostOneActive(log)
    ensures AnyActive(Started(log, now)) && AtMostOneActive(Started(log, now))
    ensures Continues(log, Started(log, now))
    ensures |Started(log, now)| == if AnyActive(log) then |log| else |log| + 1
  {
    var r := Started(log, now);
    if !AnyActive(log) {
      assert IsActive(r[|log|]);
      assert forall i :: 0 <= i < |log| ==> !IsActive(log[i]) && r[i] == log[i];
    }
  }

  /** After `endSession` no session is running when at most one was, and
      the log still continues the old one; exactly one end time is set
      when a session was running. */
  lemma EndClosesActive(log: seq<Session>, now: int)
    requires AtMostOneActive(log)
    ensures !AnyActive(Ended(log, now))
    ensures Continues(log, Ended(log, now)) && |Ended(log, now)| == |log|
    ensures AnyActive(log) ==>
              exists i :: 0 <= i < |log| && IsActive(log[i])
                && Ended(log, now) == log[i := Session(log[i].startedAt, Some(now))]
  {
    match FindFirst(log, IsActive)
    case None =>
    case Some(k) =>
      var r := Ended(log, now);
      assert r == log[k := Session(log[k].startedAt, Some(now))];
      assert IsActive(log[k]);
      assert forall i :: 0 <= i < |log| && i != k ==> !IsActive(log[i]) && r[i] == log[i];
      assert !IsActive(r[k]);
  }

  /** `endSession` on a log with nothing running changes nothing, and
      `startSession` right after `endSession` always opens a new session. */
  lemma EndThenStart(log: seq<Session>, now: int, later: int)
    requires AtMostOneActive(log)
    ensures !AnyActive(log) ==> Ended(log, now) == log
    ensures Started(Ended(log, now), later) == Ended(log, now) + [Session(later, None)]
  {
    EndClosesActive(log, now);
  }

  class SessionLog {
    var sessions: seq<Session>
    /** What the log file holds after the last write. */
    ghost var file: LogFile
    /** How many times the log file was written. */
    ghost var writes: nat

    /** The constructor loads the log file; it does not write it. */
    constructor (file: LogFile)
      ensures sessions == Loaded(file)
      ensures this.file == file && writes == 0
    {
      sessions := Loaded(file);
      this.file := file;
      writes := 0;
    }

    /** Writes the whole list to the log file; loading that file yields the
        same list. */
    method Save()
      modifies this
      ensures sessions == old(sessions)
      ensures file == Contents(sessions) && Loaded(file) == sessions
      ensures writes == old(writes) + 1
    {
      file := Contents(sessions);
      writes := writes + 1;
    }

    /** Whether some session is running. */
    method HasActiveSession() returns (active: bool)
      ensures active <==> AnyActive(sessions)
    {
      var found := FindFirst(sessions, IsActive);
      active := found.Some?;
    }

    /** Opens a session at `now` unless one is running; writes the file only
        when it opened one. */
    method StartSession(now: int)
      modifies this
      ensures sessions == Started(old(sessions), now)
      ensures AnyActive(old(sessions)) ==> file == old(file) && writes == old(writes)
      ensures !AnyActive(old(sessions)) ==> file == Contents(sessions) && writes == old(writes) + 1
    {
      var active := HasActiveSession();
      if active {
        return;
      }
      sessions := sessions + [Session(now, None)];
      Save();
    }

    /** Ends the first running session at `now`; writes the file only when
        there was one. */
    method EndSession(now: int)
      modifies this
      ensures sessions == Ended(old(sessions), now)
      ensures !AnyActive(old(sessions)) ==> file == old(file) && writes == old(writes)
      ensures AnyActive(old(sessions)) ==> file == Contents(sessions) && writes == old(writes) + 1
    {
      var found := FindFirst(sessions, IsActive);
      if found.Some? {
        var i := found.value;
        sessions := sessions[i := sessions[i].(endedAt := Some(now))];
        Save();
      }
    }

    /** getSessions: the sessions in log order. The source copies the array
        but shares the session objects with the log, so a later endSession()
        shows through an earlier result; the model returns values. */
    method GetSessions() returns (r: seq<Session>)
      ensures r == sessions
    {
      r := sessions;
    }
  }
}
