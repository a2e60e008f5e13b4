/** The incremental cache of a pane's shell history file, against parsing the whole file again. */
module HistoryTracker {
  import opened Options
  import opened HistoryParser
  import opened HistoryAppending
  import opened Whitespace
  import opened Collapsing

  datatype Entry = Entry(record: Record, pinned: bool)

  datatype File = File(content: string, mtime: nat)

  /** The fields of the tracker. */
  datatype Tracker = Tracker(cache: seq<Entry>, lastSize: nat, lastMtime: nat, loaded: bool)

  function Records(cache: seq<Entry>): seq<Record> { seq(|cache|, i requires 0 <= i < |cache| => cache[i].record) }

  function Unpinned(rs: seq<Record>): seq<Entry> { seq(|rs|, i requires 0 <= i < |rs| => Entry(rs[i], false)) }

  // ---- specification ------------------------------------------------------------------------------

  /** New records appended to the cache, except those that repeat the newest command. */
  function Merged(cache: seq<Entry>, rs: seq<Record>): seq<Entry> {
    if rs == [] then cache
    else
      var m, r := Merged(cache, rs[..|rs| - 1]), rs[|rs| - 1];
      if m != [] && m[|m| - 1].record.command == r.command then m else m + [Entry(r, false)]
  }

  /** Loading the whole file; if a timestamp makes the parser throw, only the cache has been cleared. */
  function Loaded(t: Tracker, f: File): Tracker {
    match Parse(f.content)
    case None => t.(cache := [])
    case Some(rs) => Tracker(Unpinned(rs), |f.content|, f.mtime, true)
  }

  /** One `sync`, with its result; None when the parser throws. */
  function Synced(t: Tracker, f: File): (Tracker, Option<bool>) {
    if |f.content| < t.lastSize then
      var t' := Loaded(t, f);
      (t', if Parse(f.content).None? then None else Some(|t'.cache| != |t.cache|))
    else if |f.content| > t.lastSize then
      match Parse(f.content[t.lastSize..])
      case None => (t, None)
      case Some(rs) =>
        var cache := Merged(t.cache, rs);
        (Tracker(cache, |f.content|, f.mtime, t.loaded), Some(|cache| != |t.cache|))
    else (t, Some(false))
  }

  /** The newest entry with this command has its pin set. */
  function PinSet(cache: seq<Entry>, command: string, pinned: bool): seq<Entry> {
    if cache == [] then []
    else
      var init, e := cache[..|cache| - 1], cache[|cache| - 1];
      if e.record.command == command then init + [e.(pinned := pinned)] else PinSet(init, command, pinned) + [e]
  }

  function PinOf(cache: seq<Entry>, command: string): bool {
    if cache == [] then false
    else if cache[|cache| - 1].record.command == command then cache[|cache| - 1].pinned
    else PinOf(cache[..|cache| - 1], command)
  }

  // ---- the tracker --------------------------------------------------------------------------------

  class PaneHistoryTracker {
    var cache: seq<Entry>
    var lastSize: nat
    var lastMtime: nat
    var loaded: bool

    ghost function State(): Tracker
      reads this
    {
      Tracker(cache, lastSize, lastMtime, loaded)
    }

    constructor ()
      ensures State() == Tracker([], 0, 0, false)
    {
      cache, lastSize, lastMtime, loaded := [], 0, 0, false;
    }

    /** False when the parser throws. */
    method InitialLoad(f: File) returns (ok: bool)
      modifies this
      ensures State() == Loaded(old(State()), f)
      ensures ok <==> Parse(f.content).Some?
    {
      cache := [];
      if f.content != "" {
        var rs := ParseHistoryBuffer(f.content);
        if rs.None? {
          return false;
        }
        for i := 0 to |rs.value|
          invariant cache == Unpinned(rs.value[..i])
          invariant lastSize == old(lastSize) && lastMtime == old(lastMtime) && loaded == old(loaded)
        {
          cache := cache + [Entry(rs.value[i], false)];
        }
        assert rs.value[..|rs.value|] == rs.value;
      }
      lastSize, lastMtime, loaded := |f.content|, f.mtime, true;
      ok := true;
    }

    method ParseAndMerge(newContent: string) returns (ok: bool)
      modifies this
      ensures ok <==> Parse(newContent).Some?
      ensures cache == if ok then Merged(old(cache), Parse(newContent).value) else old(cache)
      ensures lastSize == old(lastSize) && lastMtime == old(lastMtime) && loaded == old(loaded)
    {
      hide Parse;
      var rs := ParseHistoryBuffer(newContent);
      if rs.None? {
        return false;
      }
      for i := 0 to |rs.value|
        invariant cache == Merged(old(cache), rs.value[..i])
        invariant lastSize == old(lastSize) && lastMtime == old(lastMtime) && loaded == old(loaded)
      {
        assert rs.value[..i + 1][..i] == rs.value[..i];
        if !(cache != [] && cache[|cache| - 1].record.command == rs.value[i].command) {
          cache := cache + [Entry(rs.value[i], false)];
        }
      }
      assert rs.value[..|rs.value|] == rs.value;
      ok := true;
    }

    /** The file must have been loaded once: before that the program locks its mutex twice. */
    method Sync(f: File) returns (r: Option<bool>)
      requires loaded
      modifies this
      ensures (State(), r) == Synced(old(State()), f)
    {
      if |f.content| == lastSize && f.mtime == lastMtime {
        return Some(false);
      }
      var before := |cache|;
      if |f.content| < lastSize {
        var ok := InitialLoad(f);
        return if ok then Some(|cache| != before) else None;
      }
      if |f.content| > lastSize {
        var ok := ParseAndMerge(f.content[lastSize..]);
        if !ok {
          return None;
        }
        lastSize, lastMtime := |f.content|, f.mtime;
        return Some(|cache| != before);
      }
      return Some(false);
    }

    method PinCommand(command: string, pinned: bool)
      modifies this
      ensures State() == old(State()).(cache :=
                if command == "" then old(cache) else PinSet(old(cache), command, pinned))
    {
      if command == "" {
        return;
      }
      var i := |cache|;
      while i > 0
        invariant 0 <= i <= |cache| && State() == old(State())
        invariant forall j :: i <= j < |cache| ==> cache[j].record.command != command
      {
        i := i - 1;
        if cache[i].record.command == command {
          PinSetAt(cache, i, command, pinned);
          cache := cache[i := cache[i].(pinned := pinned)];
          return;
        }
      }
      PinSetNowhere(cache, command, pinned);
    }

    method IsPinned(command: string) returns (r: bool)
      ensures r == (command != "" && PinOf(cache, command))
    {
      if command == "" {
        return false;
      }
      var i := |cache|;
      assert cache[..i] == cache;
      while i > 0
        invariant 0 <= i <= |cache| && PinOf(cache, command) == PinOf(cache[..i], command)
      {
        i := i - 1;
        assert cache[..i + 1][..i] == cache[..i];
        if cache[i].record.command == command {
          return cache[i].pinned;
        }
      }
      return false;
    }
  }

  // ---- pins ---------------------------------------------------------------------------------------

  lemma {:induction false} PinSetAt(cache: seq<Entry>, i: nat, command: string, pinned: bool)
    requires i < |cache| && cache[i].record.command == command
    requires forall j :: i < j < |cache| ==> cache[j].record.command != command
    ensures PinSet(cache, command, pinned) == cache[i := cache[i].(pinned := pinned)]
  {
    var n := |cache| - 1;
    if i < n { PinSetAt(cache[..n], i, command, pinned); }
  }

  lemma {:induction false} PinSetNowhere(cache: seq<Entry>, command: string, pinned: bool)
    requires forall j :: 0 <= j < |cache| ==> cache[j].record.command != command
    ensures PinSet(cache, command, pinned) == cache
  {
    if cache != [] { PinSetNowhere(cache[..|cache| - 1], command, pinned); }
  }

  /** A pin that is set is read back, for the commands the cache holds, and changes nothing else. */
  lemma {:induction false} PinIsRead(cache: seq<Entry>, command: string, pinned: bool, other: string)
    ensures Records(PinSet(cache, command, pinned)) == Records(cache)
    ensures PinOf(PinSet(cache, command, pinned), other)
         == if other == command && exists i :: 0 <= i < |cache| && cache[i].record.command == command
            then pinned else PinOf(cache, other)
  {
    if cache != [] {
      var n := |cache| - 1;
      var init, e := cache[..n], cache[n];
      PinIsRead(init, command, pinned, other);
      assert Records(cache) == Records(init) + [e.record];
      var set' := PinSet(cache, command, pinned);
      assert |Records(set')| == |set'|;
      if e.record.command == command {
        assert set'[..n] == init && Records(set') == Records(init) + [e.record];
      } else {
        assert set'[..n] == PinSet(init, command, pinned);
        assert Records(set') == Records(PinSet(init, command, pinned)) + [e.record];
        assert (exists i :: 0 <= i < |init| && init[i].record.command == command)
          <==> (exists i :: 0 <= i < |cache| && cache[i].record.command == command) by {
          if i :| 0 <= i < |cache| && cache[i].record.command == command { assert init[i] == cache[i]; }
        }
      }
    }
  }

  // ---- adjacent repeats ---------------------------------------------------------------------------

  function Command(r: Record): string { r.command }

  /** Merging skips nothing that collapsing would keep. */
  lemma {:induction false} MergedCollapses(cache: seq<Entry>, rs: seq<Record>)
    ensures Collapse(Records(Merged(cache, rs)), Command) == Collapse(Records(cache) + rs, Command)
  {
    hide Collapse;
    if rs == [] {
      assert Records(cache) + rs == Records(cache);
    } else {
      var init, r := rs[..|rs| - 1], rs[|rs| - 1];
      var m := Merged(cache, init);
      MergedCollapses(cache, init);
      CollapseStep(Records(m), Records(cache) + init, r, Command);
      assert Records(cache) + rs == (Records(cache) + init) + [r];
      if m != [] && m[|m| - 1].record.command == r.command {
        CollapseSnoc(Records(m), r, Command);
      } else {
        assert Records(m + [Entry(r, false)]) == Records(m) + [r];
      }
    }
  }

  // ---- what one sync does -------------------------------------------------------------------------

  /** The cache has grown at its end by unpinned entries, none of which repeats the command before it. */
  ghost predicate GrownWithoutRepeats(cache: seq<Entry>, cache': seq<Entry>) {
    && cache <= cache'
    && forall i :: |cache| <= i < |cache'| ==>
         && !cache'[i].pinned
         && (i > 0 ==> cache'[i].record.command != cache'[i - 1].record.command)
  }

  lemma {:induction false} MergedGrows(cache: seq<Entry>, rs: seq<Record>)
    ensures GrownWithoutRepeats(cache, Merged(cache, rs))
  {
    if rs != [] { MergedGrows(cache, rs[..|rs| - 1]); }
  }

  /** A sync on a file that has grown keeps the old entries with their pins and takes what is new, without
      repeats; it answers whether anything was taken. Together with the collapsed records this leaves one
      possible cache. A part that cannot be parsed changes nothing. */
  lemma {:induction false} GrowingSync(t: Tracker, f: File)
    requires |f.content| > t.lastSize
    ensures var t', added := Synced(t, f).0, Parse(f.content[t.lastSize..]);
            && (added.None? ==> Synced(t, f) == (t, None))
            && (added.Some? ==>
                  && GrownWithoutRepeats(t.cache, t'.cache)
                  && Collapse(Records(t'.cache), Command) == Collapse(Records(t.cache) + added.value, Command)
                  && t' == Tracker(t'.cache, |f.content|, f.mtime, t.loaded)
                  && Synced(t, f).1 == Some(|t'.cache| > |t.cache|))
  {
    hide Parse, Collapse;
    var added := Parse(f.content[t.lastSize..]);
    if added.Some? {
      MergedGrows(t.cache, added.value);
      MergedCollapses(t.cache, added.value);
    }
  }

  /** Between two caches that grow in this way and collapse to the same records there is no difference. */
  lemma {:induction false} GrowthIsUnique(cache: seq<Entry>, a: seq<Entry>, b: seq<Entry>)
    requires GrownWithoutRepeats(cache, a) && GrownWithoutRepeats(cache, b)
    requires Collapse(Records(a), Command) == Collapse(Records(b), Command)
    ensures a == b
  {
    GrowthCollapses(cache, a);
    GrowthCollapses(cache, b);
    var base := Collapse(Records(cache), Command);
    var x, y := Records(a[|cache|..]), Records(b[|cache|..]);
    assert (base + x)[|base|..] == x && (base + y)[|base|..] == y;
    assert |x| == |a| - |cache| && |y| == |b| - |cache|;
    forall i | |cache| <= i < |a| ensures a[i] == b[i] {
      assert x[i - |cache|] == a[i].record && y[i - |cache|] == b[i].record;
    }
    assert forall i :: 0 <= i < |cache| ==> a[i] == cache[i] && b[i] == cache[i];
  }

  lemma {:induction false} GrowthCollapses(cache: seq<Entry>, a: seq<Entry>)
    requires GrownWithoutRepeats(cache, a)
    ensures Collapse(Records(a), Command) == Collapse(Records(cache), Command) + Records(a[|cache|..])
  {
    hide Collapse;
    if a == cache {
      assert Records(a[|cache|..]) == [];
    } else {
      var n := |a| - 1;
      GrowthCollapses(cache, a[..n]);
      assert Records(a) == Records(a[..n]) + [a[n].record];
      CollapseSnoc(Records(a[..n]), a[n].record, Command);
      assert Records(a[|cache|..]) == Records(a[..n][|cache|..]) + [a[n].record];
      if n > 0 { assert Records(a[..n])[n - 1] == a[n - 1].record; }
    }
  }

  /** A sync on a file that has shrunk takes the whole file, with no pins; it answers whether the number of
      entries has changed. If it cannot be parsed, the cache is empty and nothing else has changed. */
  lemma {:induction false} ShrinkingSync(t: Tracker, f: File)
    requires |f.content| < t.lastSize
    ensures var t', rs := Synced(t, f).0, Parse(f.content);
            && (rs.None? ==> Synced(t, f) == (t.(cache := []), None))
            && (rs.Some? ==>
                  && Records(t'.cache) == rs.value && (forall i :: 0 <= i < |t'.cache| ==> !t'.cache[i].pinned)
                  && t' == Tracker(t'.cache, |f.content|, f.mtime, true)
                  && Synced(t, f).1 == Some(|rs.value| != |t.cache|))
  {
    hide Parse;
  }

  /** A file of the same size is not looked at. */
  lemma {:induction false} SameSizeSync(t: Tracker, f: File)
    requires |f.content| == t.lastSize
    ensures Synced(t, f) == (t, Some(false))
  {
  }

  // ---- runs ---------------------------------------------------------------------------------------

  /** What happens to the file and the tracker: the shell appends to the file, the file is rewritten
      (truncated, for instance), the tracker is synchronized, or a command is pinned. */
  datatype Event =
    | Append(chunk: string, mtime: nat)
    | Rewrite(content: string, mtime: nat)
    | Sync
    | Pin(command: string, pinned: bool)

  /** The tracker and its file, with what the tracker last saw and whether the file was rewritten since. */
  datatype World = World(tracker: Tracker, file: File, seen: string, rewritten: bool)

  function Start(f: File): World { World(Loaded(Tracker([], 0, 0, false), f), f, f.content, false) }

  function Happens(w: World, e: Event): World {
    match e
    case Append(chunk, mtime) => w.(file := File(w.file.content + chunk, mtime))
    case Rewrite(content, mtime) => w.(file := File(content, mtime), rewritten := true)
    case Sync => w.(tracker := Synced(w.tracker, w.file).0, seen := w.file.content, rewritten := false)
    case Pin(command, pinned) =>
      if command == "" then w
      else w.(tracker := w.tracker.(cache := PinSet(w.tracker.cache, command, pinned)))
  }

  function Run(w: World, events: seq<Event>): World {
    if events == [] then w else Happens(Run(w, events[..|events| - 1]), events[|events| - 1])
  }

  /** Only whole lines whose timestamps fit 64 bits. */
  predicate IsReadable(content: string) { IsComplete(content) && Parse(content).Some? }

  /** Appended chunks keep the format of the file; after a rewrite, `sync` must see a shorter file. */
  predicate IsAllowed(w: World, e: Event) {
    match e
    case Append(chunk, _) => IsReadable(chunk) && MayFollow(Lines(w.file.content), Lines(chunk))
    case Rewrite(content, _) => IsReadable(content)
    case Sync => w.rewritten ==> |w.file.content| < |w.seen|
    case Pin(_, _) => true
  }

  ghost predicate AllAllowed(w: World, events: seq<Event>) {
    forall i :: 0 <= i < |events| ==> IsAllowed(Run(w, events[..i]), events[i])
  }

  /** The cache and a fresh parse of the file hold the same records, up to adjacent repeats. */
  predicate Agree(cache: seq<Entry>, content: string) {
    Parse(content).Some? && Collapse(Records(cache), Command) == Collapse(Parse(content).value, Command)
  }

  ghost predicate Inv(w: World) {
    && w.tracker.loaded && w.tracker.lastSize == |w.seen|
    && IsComplete(w.seen) && Agree(w.tracker.cache, w.seen)
    && IsReadable(w.file.content)
    && (!w.rewritten ==>
          w.seen <= w.file.content
          && MayFollow(Lines(w.seen), Lines(w.file.content[|w.seen|..])))
  }

  lemma {:induction false} StartInv(f: File)
    requires IsReadable(f.content)
    ensures Inv(Start(f))
  {
    ReloadAgrees(Tracker([], 0, 0, false), f);
    NothingFollows(f.content);
  }

  lemma {:induction false} ReadableAppended(content: string, chunk: string)
    requires IsReadable(content) && IsReadable(chunk) && MayFollow(Lines(content), Lines(chunk))
    ensures IsReadable(content + chunk)
    ensures Parse(content + chunk).value == Parse(content).value + Parse(chunk).value
  {
    hide ParseLines, MayFollow, Lines;
    LinesConcat(content, chunk);
    ParseAppended(Lines(content), Lines(chunk));
    assert chunk == "" ==> content + chunk == content;
  }

  lemma {:induction false} FollowsAppended(seen: string, suffix: string, chunk: string)
    requires IsComplete(seen) && IsComplete(suffix)
    requires MayFollow(Lines(seen), Lines(suffix)) && MayFollow(Lines(seen + suffix), Lines(chunk))
    ensures MayFollow(Lines(seen), Lines(suffix + chunk))
  {
    hide Lines, MayFollow;
    LinesConcat(seen, suffix);
    LinesConcat(suffix, chunk);
    MayFollowConcat(Lines(seen), Lines(suffix), Lines(chunk));
  }

  lemma {:induction false} AppendKeepsInv(w: World, e: Event)
    requires Inv(w) && e.Append? && IsAllowed(w, e)
    ensures Inv(Happens(w, e))
  {
    hide Lines, MayFollow, Parse, Collapse, Records;
    ReadableAppended(w.file.content, e.chunk);
    if !w.rewritten {
      var suffix := w.file.content[|w.seen|..];
      assert w.file.content == w.seen + suffix && IsComplete(suffix);
      assert (w.file.content + e.chunk)[|w.seen|..] == suffix + e.chunk;
      FollowsAppended(w.seen, suffix, e.chunk);
    }
  }

  lemma {:induction false} SuffixIsReadable(seen: string, suffix: string)
    requires IsReadable(seen) && IsReadable(seen + suffix) && MayFollow(Lines(seen), Lines(suffix))
    ensures IsReadable(suffix) && Parse(seen + suffix).value == Parse(seen).value + Parse(suffix).value
  {
    hide ParseLines, MayFollow, Lines;
    assert IsComplete(suffix) by {
      if suffix != "" { assert (seen + suffix)[|seen + suffix| - 1] == suffix[|suffix| - 1]; }
    }
    LinesConcat(seen, suffix);
    ParseAppended(Lines(seen), Lines(suffix));
  }

  lemma {:induction false} AgreeIsReadable(cache: seq<Entry>, content: string)
    requires Agree(cache, content)
    ensures Parse(content).Some?
  {
  }

  lemma {:induction false} NothingFollows(content: string)
    ensures content[|content|..] == "" && MayFollow(Lines(content), Lines(""))
  {
    assert !IsTimed(Lines(""));
  }

  lemma {:induction false} ReloadAgrees(t: Tracker, f: File)
    requires Parse(f.content).Some?
    ensures Records(Loaded(t, f).cache) == Parse(f.content).value && Agree(Loaded(t, f).cache, f.content)
  {
    hide Parse, Collapse;
    assert Records(Unpinned(Parse(f.content).value)) == Parse(f.content).value;
  }

  lemma {:induction false} MergeAgrees(cache: seq<Entry>, seen: string, suffix: string)
    requires IsReadable(seen) && IsReadable(seen + suffix) && MayFollow(Lines(seen), Lines(suffix))
    requires Agree(cache, seen)
    ensures Parse(suffix).Some? && Agree(Merged(cache, Parse(suffix).value), seen + suffix)
  {
    hide Parse, Lines, MayFollow, Collapse, Records, Merged;
    SuffixIsReadable(seen, suffix);
    var before, added := Parse(seen).value, Parse(suffix).value;
    MergedCollapses(cache, added);
    CollapseCongruence(Records(cache), before, added, Command);
  }

  lemma {:induction false} SyncAgrees(w: World)
    requires Inv(w) && IsAllowed(w, Sync)
    ensures Inv(Happens(w, Sync)) && Agree(Happens(w, Sync).tracker.cache, w.file.content)
    ensures Synced(w.tracker, w.file).1.Some?
  {
    hide Parse, Lines, Agree, Merged;
    var content := w.file.content;
    assert Parse(w.seen).Some? by { AgreeIsReadable(w.tracker.cache, w.seen); }
    NothingFollows(content);
    if |content| < |w.seen| {
      ReloadAgrees(w.tracker, w.file);
    } else {
      var suffix := content[|w.seen|..];
      assert content == w.seen + suffix;
      MergeAgrees(w.tracker.cache, w.seen, suffix);
      if suffix == "" { assert content == w.seen; }
    }
  }

  lemma {:induction false} StepKeepsInv(w: World, e: Event)
    requires Inv(w) && IsAllowed(w, e)
    ensures Inv(Happens(w, e))
  {
    if e.Append? {
      AppendKeepsInv(w, e);
    } else if e.Sync? {
      SyncAgrees(w);
    } else if e.Pin? {
      PinIsRead(w.tracker.cache, e.command, e.pinned, "");
    }
  }

  lemma {:induction false} AllowedBefore(w: World, events: seq<Event>)
    requires AllAllowed(w, events) && events != []
    ensures AllAllowed(w, events[..|events| - 1]) && IsAllowed(Run(w, events[..|events| - 1]), events[|events| - 1])
  {
    hide IsAllowed, Run;
    var init := events[..|events| - 1];
    forall i | 0 <= i < |init| ensures IsAllowed(Run(w, init[..i]), init[i]) {
      assert init[..i] == events[..i];
    }
  }

  lemma {:induction false} RunKeepsInv(f: File, events: seq<Event>)
    requires IsReadable(f.content) && AllAllowed(Start(f), events)
    ensures Inv(Run(Start(f), events))
  {
    hide Inv, IsAllowed, Happens, Start, IsReadable;
    if events == [] {
      StartInv(f);
    } else {
      AllowedBefore(Start(f), events);
      RunKeepsInv(f, events[..|events| - 1]);
      StepKeepsInv(Run(Start(f), events[..|events| - 1]), events[|events| - 1]);
    }
  }

  /** Over every allowed run that ends with a `sync`, the incremental cache agrees with loading the whole
      file again. */
  lemma {:induction false} IncrementalAgreesWithReload(f: File, events: seq<Event>)
    requires IsReadable(f.content) && AllAllowed(Start(f), events)
    requires events != [] && events[|events| - 1] == Sync
    ensures var w := Run(Start(f), events);
            var reloaded := Loaded(w.tracker, w.file);
            reloaded.loaded && Collapse(Records(w.tracker.cache), Command) == Collapse(Records(reloaded.cache), Command)
  {
    hide IsAllowed, Start, Synced, Parse, Collapse, Records, Merged;
    var init := events[..|events| - 1];
    AllowedBefore(Start(f), events);
    RunKeepsInv(f, init);
    var w := Run(Start(f), init);
    SyncAgrees(w);
    ReloadAgrees(Happens(w, Sync).tracker, w.file);
  }

  /** The records that a sync takes from a file of which it has seen another content before. */
  function Gathered(seen: string, content: string): Option<seq<Record>> {
    if |content| < |seen| then Parse(content)
    else if |content| == |seen| then Parse(seen)
    else Then(Parse(seen), Parse(content[|seen|..]))
  }

  /** Whatever has become of the file, a sync that does not throw makes the cache agree with it exactly when
      it is smaller than before, or when the records seen before, followed by those of the part beyond the
      old size, are those of the file up to adjacent repeats. */
  lemma {:induction false} SyncAgreesWhen(w: World)
    requires Inv(w) && Synced(w.tracker, w.file).1.Some?
    ensures Agree(Happens(w, Sync).tracker.cache, w.file.content) <==>
              || |w.file.content| < |w.seen|
              || Collapse(Gathered(w.seen, w.file.content).value, Command) ==
                Collapse(Parse(w.file.content).value, Command)
  {
    hide Parse, Lines, MayFollow, Collapse, Records;
    var content := w.file.content;
    if |content| < |w.seen| {
      ReloadAgrees(w.tracker, w.file);
    } else if |content| > |w.seen| {
      var added := Parse(content[|w.seen|..]).value;
      MergedCollapses(w.tracker.cache, added);
      CollapseCongruence(Records(w.tracker.cache), Parse(w.seen).value, added, Command);
    }
  }

  /** A rewrite that keeps the size is not noticed. */
  lemma {:induction false} SameSizeRewriteIsMissed()
    ensures var w := Happens(Start(File("a\n", 1)), Rewrite("b\n", 2));
            Inv(w) && !Agree(Happens(w, Sync).tracker.cache, w.file.content)
  {
    hide Parse, Lines, MayFollow;
    OneLetter('a');
    OneLetter('b');
    var w := Happens(Start(File("a\n", 1)), Rewrite("b\n", 2));
    assert Inv(w);
    assert w.tracker.cache == [Entry(Record("a", 0), false)];
    assert Records(w.tracker.cache) == [Record("a", 0)];
    assert Collapse([Record("a", 0)], Command) == [Record("a", 0)] by { CollapseSnoc([], Record("a", 0), Command); }
    assert Collapse([Record("b", 0)], Command) == [Record("b", 0)] by { CollapseSnoc([], Record("b", 0), Command); }
  }

  /** The second line of a command comes after a sync: the cache has the command in two parts. */
  lemma {:induction false} LateLineIsSplit()
    ensures var w := Happens(Start(File("#1\nfor\n", 1)), Rewrite("#1\nfor\n" + "done\n", 2));
            Inv(w) && !Agree(Happens(w, Sync).tracker.cache, w.file.content)
  {
    hide Parse, Collapse, Lines, MayFollow;
    var before, late := "#1\nfor\n", "done\n";
    SplitFile();
    StartInv(File(before, 1));
    var w := Happens(Start(File(before, 1)), Rewrite(before + late, 2));
    assert Inv(w) && w.seen == before && w.file.content == before + late;
    assert (before + late)[|before|..] == late;
    SyncAgreesWhen(w);
    assert [Record("for", 1_000_000)] + [Record("done", 0)] == [Record("for", 1_000_000), Record("done", 0)];
    TwoAreNotOne(Record("for", 1_000_000), Record("done", 0), Record("for\ndone", 1_000_000));
  }

  lemma {:induction false} TwoAreNotOne(a: Record, b: Record, whole: Record)
    requires a.command != b.command
    ensures Collapse([a, b], Command) != Collapse([whole], Command)
  {
    assert [a, b][..1] == [a] && [a][..0] == [] && [whole][..0] == [];
    assert Collapse([a], Command) == [] + [a];
    assert Collapse([a, b], Command) == Collapse([a], Command) + [b];
    assert Collapse([whole], Command) == [] + [whole];
  }

  lemma {:induction false} OneLetter(c: char)
    requires 'a' <= c <= 'b'
    ensures Parse([c, '\n']) == Some([Record([c], 0)]) && IsComplete([c, '\n'])
  {
    var lines := [[c]];
    assert [c] + "\n" == [c, '\n'];
    OneLine([c]);
    assert TrimLeft([c]) == [c] && TrimRight([c]) == [c];
    assert Trim([c]) == TrimRight(TrimLeft([c])) == [c];
    assert !IsTimed(lines);
    assert lines[1..] == [];
    assert ParsePlain(lines) == Emit([c], 0) + ParsePlain(lines[1..]);
    assert ParsePlain(lines) == [Record([c], 0)];
  }
}
