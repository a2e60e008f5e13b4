/** The autosave scheduler: a resource is flushed once, when it has been idle for its window. */
module Autosave {
  import opened Options

  datatype Kind = Terminal | Note | Workspace

  /** The key of the workspace entry; terminals and notes are keyed by their ids. */
  const WORKSPACE_KEY := "__remin_workspace__"

  /** A pending resource and the time of its last activity. */
  datatype Entry = Entry(kind: Kind, last: int)

  type Pending = map<string, Entry>

  /** The idle windows. */
  datatype Policy = Policy(terminalDebounce: int, noteIdle: int)

  datatype Activity = Activity(kind: Kind, key: string, at: int)

  // ---- specification ------------------------------------------------------------------------------

  function Threshold(policy: Policy, kind: Kind): int {
    if kind == Note then policy.noteIdle else policy.terminalDebounce
  }

  /** The entry's window has elapsed; a window that is not positive never elapses. */
  predicate IsDue(policy: Policy, e: Entry, now: int) {
    Threshold(policy, e.kind) > 0 && now - e.last >= Threshold(policy, e.kind)
  }

  function DueKeys(policy: Policy, p: Pending, now: int): set<string> {
    set k | k in p && IsDue(policy, p[k], now)
  }

  predicate WorkspaceDue(policy: Policy, p: Pending, now: int) {
    exists k :: k in p && IsDue(policy, p[k], now) && p[k].kind == Workspace
  }

  function Mark(p: Pending, a: Activity): Pending { p[a.key := Entry(a.kind, a.at)] }

  function MarkAll(p: Pending, marks: seq<Activity>): Pending {
    if marks == [] then p else Mark(MarkAll(p, marks[..|marks| - 1]), marks[|marks| - 1])
  }

  /** A flush: if a workspace entry is due, the workspace callback runs and may mark activity while it
      does; then the entries that were due go. */
  function Flushed(policy: Policy, p: Pending, now: int, callback: Option<seq<Activity>>): Pending {
    (if WorkspaceDue(policy, p, now) && callback.Some? then MarkAll(p, callback.value) else p) - DueKeys(policy, p, now)
  }

  // ---- the scheduler ------------------------------------------------------------------------------

  /** The host's workspace callback is given as the activity it raises; `calls` counts its runs. */
  class Autosaver {
    var pending: Pending
    var policy: Policy
    var calls: nat

    constructor ()
      ensures pending == map[] && policy == Policy(2000, 10000) && calls == 0
    {
      pending := map[];
      policy := Policy(2000, 10000);
      calls := 0;
    }

    method Touch(kind: Kind, key: string, now: int)
      modifies `pending
      ensures pending == Mark(old(pending), Activity(kind, key, now))
    {
      pending := pending[key := Entry(kind, now)];
    }

    method NoteTerminalActivity(pane: string, now: int)
      modifies `pending
      ensures pending == Mark(old(pending), Activity(Terminal, pane, now))
    {
      Touch(Terminal, pane, now);
    }

    method NoteNoteActivity(note: string, now: int)
      modifies `pending
      ensures pending == Mark(old(pending), Activity(Note, note, now))
    {
      Touch(Note, note, now);
    }

    method NoteWorkspaceActivity(now: int)
      modifies `pending
      ensures pending == Mark(old(pending), Activity(Workspace, WORKSPACE_KEY, now))
    {
      Touch(Workspace, WORKSPACE_KEY, now);
    }

    method Due(now: int) returns (due: bool)
      ensures due <==> DueKeys(policy, pending, now) != {}
    {
      var todo := pending.Keys;
      while todo != {}
        invariant todo <= pending.Keys
        invariant DueKeys(policy, pending, now) <= todo
        decreases todo
      {
        var k :| k in todo;
        if IsDue(policy, pending[k], now) {
          assert k in DueKeys(policy, pending, now);
          return true;
        }
        todo := todo - {k};
      }
      return false;
    }

    /** The workspace callback, with the re-entrant activity it raises. */
    method RunCallback(marks: seq<Activity>)
      modifies `pending, `calls
      ensures pending == MarkAll(old(pending), marks) && calls == old(calls) + 1
    {
      calls := calls + 1;
      for i := 0 to |marks|
        invariant pending == MarkAll(old(pending), marks[..i]) && calls == old(calls) + 1
      {
        Touch(marks[i].kind, marks[i].key, marks[i].at);
        assert marks[..i + 1][..i] == marks[..i];
      }
      assert marks[..|marks|] == marks;
    }

    method Flush(now: int, callback: Option<seq<Activity>>) returns (wrote: bool)
      modifies `pending, `calls
      ensures wrote <==> DueKeys(policy, old(pending), now) != {}
      ensures pending == Flushed(policy, old(pending), now, callback)
      ensures calls == old(calls) + if WorkspaceDue(policy, old(pending), now) && callback.Some? then 1 else 0
    {
      wrote := false;
      var workspaceDue := false;
      var done: set<string> := {};
      var todo := pending.Keys;
      while todo != {}
        invariant todo <= pending.Keys && pending == old(pending) && calls == old(calls)
        invariant done == set k | k in pending && k !in todo && IsDue(policy, pending[k], now)
        invariant wrote <==> done != {}
        invariant workspaceDue <==> exists k :: k in done && k in pending && pending[k].kind == Workspace
        decreases todo
      {
        var k :| k in todo;
        if IsDue(policy, pending[k], now) {
          if pending[k].kind == Workspace {
            workspaceDue := true;
          }
          wrote := true;
          done := done + {k};
        }
        todo := todo - {k};
      }
      assert done == DueKeys(policy, pending, now);
      if workspaceDue && callback.Some? {
        RunCallback(callback.value);
      }
      pending := pending - done;
    }

    /** Explicit save or shutdown: one callback run, and nothing stays pending. */
    method FlushNow(callback: Option<seq<Activity>>) returns (wrote: bool)
      modifies `pending, `calls
      ensures wrote == callback.Some? && pending == map[]
      ensures calls == old(calls) + if callback.Some? then 1 else 0
    {
      wrote := false;
      if callback.Some? {
        RunCallback(callback.value);
        wrote := true;
      }
      pending := map[];
    }
  }

  // ---- one flush ----------------------------------------------------------------------------------

  lemma {:induction false} MarkedKeys(p: Pending, marks: seq<Activity>, k: string)
    ensures k in MarkAll(p, marks) <==> k in p || exists i :: 0 <= i < |marks| && marks[i].key == k
    ensures (forall i :: 0 <= i < |marks| ==> marks[i].key != k) && k in p ==> MarkAll(p, marks)[k] == p[k]
  {
    if marks != [] {
      var n := |marks| - 1;
      MarkedKeys(p, marks[..n], k);
      assert marks[n].key == k ==> k in MarkAll(p, marks);
    }
  }

  /** A flush drops exactly the due entries. A resource that was due is gone even if the callback
      marked it again; every other entry stays, changed only if the callback marked it. */
  lemma {:induction false} FlushDropsDue(policy: Policy, p: Pending, now: int, callback: Option<seq<Activity>>,
                                         k: string)
    ensures k in p && IsDue(policy, p[k], now) ==> k !in Flushed(policy, p, now, callback)
    ensures k in p && !IsDue(policy, p[k], now) ==> k in Flushed(policy, p, now, callback)
    ensures k in p && !IsDue(policy, p[k], now)
            && (callback.Some? ==> forall i :: 0 <= i < |callback.value| ==> callback.value[i].key != k)
            ==> Flushed(policy, p, now, callback)[k] == p[k]
  {
    if callback.Some? {
      MarkedKeys(p, callback.value, k);
    }
  }

  // ---- runs ---------------------------------------------------------------------------------------

  datatype Event = Touched(activity: Activity) | FlushAt(at: int, marks: Option<seq<Activity>>) | FlushAll

  /** What is pending after the first `n` events. */
  function After(policy: Policy, trace: seq<Event>, n: nat): Pending
    requires n <= |trace|
  {
    if n == 0 then map[]
    else
      var p := After(policy, trace, n - 1);
      match trace[n - 1]
      case Touched(a) => Mark(p, a)
      case FlushAt(at, marks) => Flushed(policy, p, at, marks)
      case FlushAll => map[]
  }

  /** Terminal and note ids differ from the workspace key, and the callback marks only the workspace. */
  ghost predicate WellKeyed(trace: seq<Event>) {
    forall n :: 0 <= n < |trace| ==>
      match trace[n]
      case Touched(a) => a.kind == Workspace <==> a.key == WORKSPACE_KEY
      case FlushAt(_, marks) => marks.Some? ==> OnlyWorkspaceMarks(marks.value)
      case FlushAll => true
  }

  ghost predicate OnlyWorkspaceMarks(marks: seq<Activity>) {
    forall i :: 0 <= i < |marks| ==> marks[i].kind == Workspace && marks[i].key == WORKSPACE_KEY
  }

  /** The trace with a callback that marks nothing. */
  function Quiet(trace: seq<Event>): (r: seq<Event>)
    ensures |r| == |trace|
  {
    seq(|trace|, n requires 0 <= n < |trace| =>
      if trace[n].FlushAt? then FlushAt(trace[n].at, None) else trace[n])
  }

  /** Only the workspace entry has kind Workspace. */
  lemma {:induction false} OnlyWorkspaceKey(policy: Policy, trace: seq<Event>, n: nat)
    requires n <= |trace| && WellKeyed(trace)
    ensures forall k :: k in After(policy, trace, n) ==>
              (After(policy, trace, n)[k].kind == Workspace <==> k == WORKSPACE_KEY)
  {
    if n > 0 {
      OnlyWorkspaceKey(policy, trace, n - 1);
      if trace[n - 1].FlushAt? && trace[n - 1].marks.Some? {
        MarksKeepKinds(After(policy, trace, n - 1), trace[n - 1].marks.value);
      }
    }
  }

  lemma {:induction false} MarksKeepKinds(p: Pending, marks: seq<Activity>)
    requires forall k :: k in p ==> (p[k].kind == Workspace <==> k == WORKSPACE_KEY)
    requires OnlyWorkspaceMarks(marks)
    ensures forall k :: k in MarkAll(p, marks) ==> (MarkAll(p, marks)[k].kind == Workspace <==> k == WORKSPACE_KEY)
    ensures MarkAll(p, marks) - {WORKSPACE_KEY} == p - {WORKSPACE_KEY}
  {
    if marks != [] {
      MarksKeepKinds(p, marks[..|marks| - 1]);
    }
  }

  /** The activity that the workspace callback raises while it saves never arms the timer again: every
      run is the same as if the callback had marked nothing. */
  lemma {:induction false} ReentrantMarksVanish(policy: Policy, trace: seq<Event>, n: nat)
    requires n <= |trace| && WellKeyed(trace)
    ensures After(policy, trace, n) == After(policy, Quiet(trace), n)
  {
    if n > 0 {
      ReentrantMarksVanish(policy, trace, n - 1);
      var p := After(policy, trace, n - 1);
      match trace[n - 1]
      case FlushAt(at, marks) =>
        OnlyWorkspaceKey(policy, trace, n - 1);
        if WorkspaceDue(policy, p, at) && marks.Some? {
          MarksKeepKinds(p, marks.value);
          var due := DueKeys(policy, p, at);
          assert WORKSPACE_KEY in due;
          assert MarkAll(p, marks.value) - due == (MarkAll(p, marks.value) - {WORKSPACE_KEY}) - due;
          assert p - due == (p - {WORKSPACE_KEY}) - due;
        }
      case _ =>
    }
  }

  // ---- when a resource is flushed -------------------------------------------------------------------

  ghost predicate IsQuiet(trace: seq<Event>) {
    forall n :: 0 <= n < |trace| && trace[n].FlushAt? ==> trace[n].marks == None
  }

  predicate Touches(e: Event, k: string) { e.Touched? && e.activity.key == k }

  function EntryOf(e: Event): Entry
    requires e.Touched?
  {
    Entry(e.activity.kind, e.activity.at)
  }

  /** The last activity of `k` before event `n` is event `j`, and no flush in between found it due. */
  ghost predicate Armed(policy: Policy, trace: seq<Event>, n: nat, k: string, j: nat) {
    && j < n <= |trace|
    && Touches(trace[j], k)
    && forall m :: j < m < n ==>
         && !Touches(trace[m], k)
         && !trace[m].FlushAll?
         && (trace[m].FlushAt? ==> !IsDue(policy, EntryOf(trace[j]), trace[m].at))
  }

  /** Without callbacks, a resource is pending exactly from its last activity until a flush finds it due. */
  lemma {:induction false} QuietPendingIsArmed(policy: Policy, trace: seq<Event>, n: nat, k: string)
    requires n <= |trace| && IsQuiet(trace)
    ensures k in After(policy, trace, n) <==> exists j: nat :: Armed(policy, trace, n, k, j)
    ensures forall j: nat :: Armed(policy, trace, n, k, j) && k in After(policy, trace, n) ==>
              After(policy, trace, n)[k] == EntryOf(trace[j])
  {
    if n > 0 {
      QuietPendingIsArmed(policy, trace, n - 1, k);
      var p := After(policy, trace, n - 1);
      if Touches(trace[n - 1], k) {
        assert Armed(policy, trace, n, k, n - 1);
      } else {
        forall j: nat ensures Armed(policy, trace, n, k, j) ==> Armed(policy, trace, n - 1, k, j) {
          if Armed(policy, trace, n, k, j) { assert j != n - 1; }
        }
        if k in After(policy, trace, n) {
          var j: nat :| Armed(policy, trace, n - 1, k, j);
          assert Armed(policy, trace, n, k, j);
        }
      }
    }
  }

  lemma {:induction false} QuietArmed(policy: Policy, trace: seq<Event>, n: nat, k: string, j: nat)
    ensures Armed(policy, Quiet(trace), n, k, j) <==> Armed(policy, trace, n, k, j)
  {
    var quiet := Quiet(trace);
    assert forall m :: 0 <= m < |trace| ==>
      (Touches(quiet[m], k) <==> Touches(trace[m], k)) && (quiet[m].FlushAll? <==> trace[m].FlushAll?)
      && (quiet[m].FlushAt? <==> trace[m].FlushAt?) && (trace[m].FlushAt? ==> quiet[m].at == trace[m].at);
    if j < |trace| && Touches(trace[j], k) { assert quiet[j] == trace[j]; }
  }

  /** A resource is pending exactly from its last activity until a flush finds it due, whatever the workspace
      callback marks meanwhile. */
  lemma {:induction false} PendingIsArmed(policy: Policy, trace: seq<Event>, n: nat, k: string)
    requires n <= |trace| && WellKeyed(trace)
    ensures k in After(policy, trace, n) <==> exists j: nat :: Armed(policy, trace, n, k, j)
    ensures forall j: nat :: Armed(policy, trace, n, k, j) && k in After(policy, trace, n) ==>
              After(policy, trace, n)[k] == EntryOf(trace[j])
  {
    hide Armed, WellKeyed;
    ReentrantMarksVanish(policy, trace, n);
    QuietPendingIsArmed(policy, Quiet(trace), n, k);
    forall j: nat
      ensures Armed(policy, Quiet(trace), n, k, j) <==> Armed(policy, trace, n, k, j)
      ensures Armed(policy, trace, n, k, j) ==> j < |trace| && Touches(trace[j], k) && Quiet(trace)[j] == trace[j]
    {
      QuietArmed(policy, trace, n, k, j);
      ArmedTouches(policy, trace, n, k, j);
    }
  }

  lemma {:induction false} ArmedTouches(policy: Policy, trace: seq<Event>, n: nat, k: string, j: nat)
    ensures Armed(policy, trace, n, k, j) ==> j < |trace| && Touches(trace[j], k) && Quiet(trace)[j] == trace[j]
  {
  }

  /** The debounce law: event `i` flushes `k` if and only if it is the first flush, after the last
      activity of `k`, at which the window since that activity has elapsed. */
  lemma {:induction false} FlushedExactlyWhenIdle(policy: Policy, trace: seq<Event>, i: nat, k: string)
    requires i < |trace| && trace[i].FlushAt? && WellKeyed(trace)
    ensures k in DueKeys(policy, After(policy, trace, i), trace[i].at) <==>
              exists j: nat :: Armed(policy, trace, i, k, j)
                && IsDue(policy, EntryOf(trace[j]), trace[i].at)
  {
    PendingIsArmed(policy, trace, i, k);
  }

  /** Terminals and the workspace wait for the debounce window, notes for the idle window. */
  lemma {:induction false} WindowsByKind(policy: Policy, e: Entry, now: int)
    ensures e.kind == Note ==> (IsDue(policy, e, now) <==> policy.noteIdle > 0 && now >= e.last + policy.noteIdle)
    ensures e.kind != Note ==>
              (IsDue(policy, e, now) <==> policy.terminalDebounce > 0 && now >= e.last + policy.terminalDebounce)
  {
  }

  /** A flush runs the workspace callback if and only if the workspace has been active, the debounce window has
      passed since its last activity, and no flush has done so before. */
  lemma {:induction false} CallbackRunsWhenIdle(policy: Policy, trace: seq<Event>, i: nat)
    requires i < |trace| && trace[i].FlushAt? && WellKeyed(trace)
    ensures WorkspaceDue(policy, After(policy, trace, i), trace[i].at) <==>
              exists j: nat :: Armed(policy, trace, i, WORKSPACE_KEY, j) && policy.terminalDebounce > 0
                && trace[i].at >= trace[j].activity.at + policy.terminalDebounce
  {
    hide Armed;
    var p := After(policy, trace, i);
    OnlyWorkspaceKey(policy, trace, i);
    PendingIsArmed(policy, trace, i, WORKSPACE_KEY);
    assert WorkspaceDue(policy, p, trace[i].at) <==> WORKSPACE_KEY in p && IsDue(policy, p[WORKSPACE_KEY], trace[i].at);
    forall j: nat | Armed(policy, trace, i, WORKSPACE_KEY, j)
      ensures j < |trace| && trace[j].Touched? && WORKSPACE_KEY in p && p[WORKSPACE_KEY] == EntryOf(trace[j])
      ensures p[WORKSPACE_KEY].kind == Workspace
    {
      ArmedTouches(policy, trace, i, WORKSPACE_KEY, j);
    }
  }

  /** Between two flushes of the same resource there is new activity. */
  lemma {:induction false} NewActivityBetweenFlushes(policy: Policy, trace: seq<Event>, i: nat, i': nat, k: string)
    requires i < i' < |trace| && trace[i].FlushAt? && trace[i'].FlushAt? && WellKeyed(trace)
    requires k in DueKeys(policy, After(policy, trace, i), trace[i].at)
    requires k in DueKeys(policy, After(policy, trace, i'), trace[i'].at)
    ensures exists j :: i < j < i' && Touches(trace[j], k)
  {
    FlushedExactlyWhenIdle(policy, trace, i, k);
    FlushedExactlyWhenIdle(policy, trace, i', k);
    var j: nat :| Armed(policy, trace, i, k, j)
          && IsDue(policy, EntryOf(trace[j]), trace[i].at);
    var j': nat :| Armed(policy, trace, i', k, j')
          && IsDue(policy, EntryOf(trace[j']), trace[i'].at);
    assert i < j' < i';
  }
}
