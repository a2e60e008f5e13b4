/** Exactly when appending to a history file appends the commands of the new lines. */
module HistoryAppending {
  import opened Options
  import opened Whitespace
  import opened HistoryParser
  import Decimal

  // ---- where the timestamped format stands after some lines ---------------------------------------

  /** Some timestamp does not fit 64 bits. */
  predicate Overflows(lines: seq<string>) {
    exists i :: 0 <= i < |lines| && IsStamp(lines[i]) && Seconds(lines[i]) > MAX_SECONDS
  }

  /** The timestamp and the command that is being collected. */
  datatype State = State(ts: int, cmd: string)

  function After(s: State, line: string): State {
    if IsStamp(line) then State(Seconds(line), "")
    else if !IsBlank(line) || s.cmd != "" then State(s.ts, Extend(s.cmd, line))
    else s
  }

  function AfterAll(s: State, lines: seq<string>): State
    decreases lines
  {
    if lines == [] then s else AfterAll(After(s, lines[0]), lines[1..])
  }

  /** The records finished on the way. */
  function Finished(s: State, lines: seq<string>): seq<Record>
    decreases lines
  {
    if lines == [] then []
    else (if IsStamp(lines[0]) then Emit(s.cmd, s.ts) else []) + Finished(After(s, lines[0]), lines[1..])
  }

  function ParseFrom(s: State, lines: seq<string>): Option<seq<Record>> { ParseTimed(lines, s.ts, s.cmd) }

  lemma {:induction false} OverflowsCons(line: string, lines: seq<string>)
    ensures Overflows([line] + lines) <==> (IsStamp(line) && Seconds(line) > MAX_SECONDS) || Overflows(lines)
  {
    var all := [line] + lines;
    if Overflows(lines) {
      var i :| 0 <= i < |lines| && IsStamp(lines[i]) && Seconds(lines[i]) > MAX_SECONDS;
      assert all[i + 1] == lines[i];
    }
    if IsStamp(line) && Seconds(line) > MAX_SECONDS { assert all[0] == line; }
  }

  lemma {:induction false} OverflowThrows(s: State, lines: seq<string>)
    ensures ParseFrom(s, lines).None? <==> Overflows(lines)
    decreases lines
  {
    if lines != [] {
      assert [lines[0]] + lines[1..] == lines;
      OverflowsCons(lines[0], lines[1..]);
      OverflowThrows(After(s, lines[0]), lines[1..]);
    }
  }

  /** A parse stops and goes on. */
  lemma {:induction false} ParseSplits(s: State, a: seq<string>, b: seq<string>)
    requires !Overflows(a)
    ensures ParseFrom(s, a + b) == Then(Some(Finished(s, a)), ParseFrom(AfterAll(s, a), b))
    decreases a
  {
    if a == [] {
      assert a + b == b;
      ThenNothing(ParseFrom(s, b));
    } else {
      assert (a + b)[1..] == a[1..] + b && [a[0]] + a[1..] == a;
      OverflowsCons(a[0], a[1..]);
      var s' := After(s, a[0]);
      ParseSplits(s', a[1..], b);
      var rest := ParseFrom(AfterAll(s', a[1..]), b);
      if IsStamp(a[0]) {
        ThenAssociates(Some(Emit(s.cmd, s.ts)), Some(Finished(s', a[1..])), rest);
      } else {
        assert [] + Finished(s', a[1..]) == Finished(s', a[1..]);
      }
    }
  }

  /** A timestamp line is a `#` and a numeral, whatever white space stands around; 64 bits hold it up to the
      largest signed number. */
  lemma {:induction false} StampsAre(line: string)
    ensures IsStamp(line) <==> exists d :: d != "" && Decimal.AllDigits(d) && Trim(line) == "#" + d
    ensures forall d :: Decimal.AllDigits(d) && d != "" && Trim(line) == "#" + d ==>
              IsStamp(line) && Seconds(line) == Decimal.Value(d)
    ensures MAX_SECONDS == 9_223_372_036_854_775_807
  {
    var s := Trim(line);
    if IsStamp(line) {
      var d := s[1..];
      assert s == "#" + d && forall i :: 0 <= i < |d| ==> d[i] == s[i + 1];
    }
    forall d | Decimal.AllDigits(d) && d != "" && s == "#" + d ensures IsStamp(line) && s[1..] == d {
      assert forall i :: 1 <= i < |s| ==> s[i] == d[i - 1];
    }
  }

  // ---- going on in the middle of a command --------------------------------------------------------

  /** The first command only grows. */
  lemma {:induction false} CommandGrows(s: State, lines: seq<string>)
    requires s.cmd != "" && ParseFrom(s, lines).Some?
    ensures ParseFrom(s, lines).value != [] && |ParseFrom(s, lines).value[0].command| >= |s.cmd|
    ensures lines != [] && !IsStamp(lines[0]) ==> |ParseFrom(s, lines).value[0].command| > |s.cmd|
    decreases lines
  {
    if lines != [] && !IsStamp(lines[0]) { CommandGrows(After(s, lines[0]), lines[1..]); }
  }

  /** Lines that go on with a command are part of it, so on their own they read differently unless both
      readings throw. */
  lemma {:induction false} GoesOn(s: State, b: seq<string>)
    requires s.cmd != "" && b != [] && !IsStamp(b[0])
    ensures ParseFrom(s, b) == Then(Some(Emit(s.cmd, s.ts)), ParseLines(b)) <==> IsTimed(b) && Overflows(b)
  {
    OverflowThrows(s, b);
    OverflowThrows(State(0, ""), b);
    if ParseFrom(s, b).Some? && ParseLines(b).Some? {
      CommandGrows(s, b);
      assert (Emit(s.cmd, s.ts) + ParseLines(b).value)[0] == Record(s.cmd, s.ts * 1_000_000);
    }
  }

  // ---- going on between two commands --------------------------------------------------------------

  /** Nothing but one line that is trimmed and not blank, after blank ones. */
  predicate OneTrimmedLine(lines: seq<string>) {
    lines != [] && if IsBlank(lines[0]) then OneTrimmedLine(lines[1..]) else |lines| == 1 && Trim(lines[0]) == lines[0]
  }

  lemma {:induction false} StampResets(ts: int, lines: seq<string>)
    requires IsTimed(lines)
    ensures ParseTimed(lines, ts, "") == ParseTimed(lines, 0, "")
  {
    if IsBlank(lines[0]) { StampResets(ts, lines[1..]); }
  }

  /** Between two commands, lines of a plain look read the same on their own only if they are blank, or are
      one trimmed line under timestamp 0. */
  lemma {:induction false} PlainLooking(ts: int, b: seq<string>)
    requires !IsTimed(b)
    ensures ParseTimed(b, ts, "") == Some(ParsePlain(b)) <==> AllBlank(b) || (ts == 0 && OneTrimmedLine(b))
  {
    if b != [] {
      var rest := b[1..];
      assert AllBlank(b) <==> IsBlank(b[0]) && AllBlank(rest);
      if IsBlank(b[0]) {
        PlainLooking(ts, rest);
        assert ParsePlain(b) == Emit("", 0) + ParsePlain(rest) == ParsePlain(rest);
      } else {
        assert !AllBlank(b);
        StartsACommand(ts, b[0], rest);
        assert [b[0]] + rest == b;
      }
    }
  }

  lemma {:induction false} StartsACommand(ts: int, line: string, rest: seq<string>)
    requires !IsBlank(line) && !IsStamp(line)
    ensures ParseTimed(rest, ts, line) == Some([Record(Trim(line), 0)] + ParsePlain(rest)) <==>
              ts == 0 && rest == [] && Trim(line) == line
  {
    var plain := [Record(Trim(line), 0)] + ParsePlain(rest);
    assert plain[0] == Record(Trim(line), 0) && plain[1..] == ParsePlain(rest);
    TrimIsShorter(line);
    if rest == [] {
      var timed := [Record(line, ts * 1_000_000)];
      assert ParseTimed(rest, ts, line) == Some(timed) && line != "";
      assert timed[0] == plain[0] <==> ts == 0 && Trim(line) == line;
      assert plain == [plain[0]] && timed == [timed[0]];
    } else if ParseTimed(rest, ts, line).Some? {
      var timed := ParseTimed(rest, ts, line).value;
      CommandGrows(State(ts, line), rest);
      if IsStamp(rest[0]) {
        assert timed == [Record(line, ts * 1_000_000)] + ParseTimed(rest[1..], Seconds(rest[0]), "").value;
        assert timed[1..] == ParseTimed(rest[1..], Seconds(rest[0]), "").value;
        PlainStartsWithStamp(rest);
        if timed[1..] != [] { TimedHasNoTimestamps(rest[1..], Seconds(rest[0]), "", 0); }
      }
    }
  }

  lemma {:induction false} TrimIsShorter(s: string)
    ensures |Trim(s)| <= |s|
  {
    LeftIsShorter(s);
    RightIsShorter(TrimLeft(s));
  }

  lemma {:induction false} LeftIsShorter(s: string)
    ensures |TrimLeft(s)| <= |s|
  {
    if s != "" && IsSpace(s[0]) { LeftIsShorter(s[1..]); }
  }

  lemma {:induction false} RightIsShorter(s: string)
    ensures |TrimRight(s)| <= |s|
  {
    if s != "" && IsSpace(s[|s| - 1]) { RightIsShorter(s[..|s| - 1]); }
  }

  // ---- the condition ------------------------------------------------------------------------------

  /** Lines that do not begin with a timestamp and yet may follow in a timestamped file: after an exception;
      behind a command only such as throw themselves; between two commands blank lines, also before a
      timestamp, or one trimmed line under timestamp 0. */
  predicate Continues(a: seq<string>, b: seq<string>) {
    var s := AfterAll(State(0, ""), a);
    || Overflows(a)
    || (if s.cmd != "" then IsTimed(b) && Overflows(b)
        else IsTimed(b) || AllBlank(b) || (s.ts == 0 && OneTrimmedLine(b)))
  }

  /** For every file and all lines appended to it: their commands are appended if and only if the lines keep
      the format, or continue a timestamped file in this way. */
  lemma {:induction false} AppendedWhen(a: seq<string>, b: seq<string>)
    ensures ParseLines(a + b) == Then(ParseLines(a), ParseLines(b)) <==>
              MayFollow(a, b) || (IsTimed(a) && Continues(a, b))
  {
    hide AfterAll, Finished, Overflows;
    if MayFollow(a, b) {
      ParseAppended(a, b);
    } else if !IsTimed(a) {
      PlainAppended(a, b);
    } else {
      var start := State(0, "");
      TimedOfConcat(a, b);
      OverflowThrows(start, a);
      if Overflows(a) {
        TimedOverflows(a, b);
      } else {
        var s, done := AfterAll(start, a), Finished(start, a);
        ParseSplits(start, a, b);
        ParseSplits(start, a, []);
        assert a + [] == a;
        assert ParseLines(a) == Then(Some(done), Some(Emit(s.cmd, s.ts)));
        ThenAssociates(Some(done), Some(Emit(s.cmd, s.ts)), ParseLines(b));
        ThenCancels(done, ParseFrom(s, b), Then(Some(Emit(s.cmd, s.ts)), ParseLines(b)));
        if s.cmd != "" {
          GoesOn(s, b);
        } else {
          ThenNothing(ParseLines(b));
          if IsTimed(b) { StampResets(s.ts, b); } else { PlainLooking(s.ts, b); }
        }
      }
    }
  }

  lemma {:induction false} ThenCancels(done: seq<Record>, x: Option<seq<Record>>, y: Option<seq<Record>>)
    ensures Then(Some(done), x) == Then(Some(done), y) <==> x == y
  {
    if x.Some? && y.Some? {
      assert (done + x.value)[|done|..] == x.value && (done + y.value)[|done|..] == y.value;
    }
  }

  lemma {:induction false} TimedOverflows(a: seq<string>, b: seq<string>)
    requires Overflows(a)
    ensures ParseTimed(a + b, 0, "").None?
  {
    var i :| 0 <= i < |a| && IsStamp(a[i]) && Seconds(a[i]) > MAX_SECONDS;
    assert (a + b)[i] == a[i];
    OverflowThrows(State(0, ""), a + b);
  }

  /** A command of two lines of which the second one comes later: the file has one command, its parts on
      their own have two. */
  lemma {:induction false} SplitCommand()
    ensures ParseLines(["#1", "for", "done"]) == Some([Record("for\ndone", 1_000_000)])
    ensures ParseLines(["#1", "for"]) == Some([Record("for", 1_000_000)])
            && ParseLines(["done"]) == Some([Record("done", 0)])
  {
    var all, a, b := ["#1", "for", "done"], ["#1", "for"], ["done"];
    TrimmedTwo("#1");
    assert "#1"[1..] == "1" && "1"[..0] == "" && Decimal.Value("1") == 1;
    assert IsStamp("#1") && Seconds("#1") == 1;
    assert Trim("for") == "for" && Trim("done") == "done";
    assert all[1..] == ["for", "done"] && ["for", "done"][1..] == b && a[1..] == ["for"] && ["for"][1..] == []
      && b[1..] == [];
    assert ParseTimed([], 1, "for\ndone") == Some([Record("for\ndone", 1_000_000)]);
    assert Extend("for", "done") == "for\ndone";
    assert ParseTimed(b, 1, "for") == ParseTimed(b[1..], 1, Extend("for", b[0])) == ParseTimed([], 1, "for\ndone");
    assert ParseTimed(["for", "done"], 1, "") == ParseTimed(b, 1, "for");
    ThenNothing(ParseTimed(["for", "done"], 1, ""));
    assert ParseTimed(["for"], 1, "") == ParseTimed([], 1, "for") == Some([Record("for", 1_000_000)]);
    ThenNothing(ParseTimed(["for"], 1, ""));
    assert ParsePlain(b) == Emit("done", 0) + ParsePlain([]) == [Record("done", 0)];
  }

  /** The same of files. */
  lemma {:induction false} SplitFile()
    ensures IsComplete("#1\nfor\n") && IsComplete("#1\nfor\n" + "done\n") && IsComplete("done\n")
    ensures Parse("#1\nfor\n" + "done\n") == Some([Record("for\ndone", 1_000_000)])
    ensures Parse("#1\nfor\n") == Some([Record("for", 1_000_000)]) && Parse("done\n") == Some([Record("done", 0)])
  {
    hide Lines, ParseLines;
    OneLine("#1");
    OneLine("for");
    OneLine("done");
    assert "#1" + "\n" == "#1\n" && "for" + "\n" == "for\n" && "done" + "\n" == "done\n";
    assert "#1\n" + "for\n" == "#1\nfor\n";
    LinesConcat("#1\n", "for\n");
    LinesConcat("#1\nfor\n", "done\n");
    assert ["#1"] + ["for"] == ["#1", "for"] && ["#1", "for"] + ["done"] == ["#1", "for", "done"];
    SplitCommand();
  }
}
