/** The parser of shell history files, plain or with timestamp lines. */
module HistoryParser {
  import opened Options
  import opened Whitespace
  import Decimal

  /** A parsed command; plain files give timestamp 0. */
  datatype Record = Record(command: string, timestampUs: int)

  /** The largest number of seconds a timestamp line may hold; beyond it the parser throws. */
  const MAX_SECONDS: nat := 0x7FFF_FFFF_FFFF_FFFF

  // ---- lines --------------------------------------------------------------------------------------

  /** The index of the first newline, or the length. */
  function LineEnd(s: string): (i: nat)
    ensures i <= |s|
    ensures i < |s| ==> s[i] == '\n'
    ensures forall k :: 0 <= k < i ==> s[k] != '\n'
  {
    if s == "" || s[0] == '\n' then 0 else 1 + LineEnd(s[1..])
  }

  /** The lines that reading line by line gives: a final newline ends the last line, it does not start
      an empty one. */
  function Lines(s: string): seq<string> {
    if s == "" then []
    else
      var i := LineEnd(s);
      if i == |s| then [s] else [s[..i]] + Lines(s[i + 1..])
  }

  predicate IsBlank(s: string) { Trim(s) == "" }

  /** `#` and at least one digit, and nothing else. */
  predicate IsTimestamp(s: string) { |s| > 1 && s[0] == '#' && forall i :: 1 <= i < |s| ==> Decimal.IsDigit(s[i]) }

  /** A line that reads as a timestamp once trimmed. */
  predicate IsStamp(line: string) { IsTimestamp(Trim(line)) }

  function Seconds(line: string): nat
    requires IsStamp(line)
  {
    Decimal.Value(Trim(line)[1..])
  }

  // ---- specification ------------------------------------------------------------------------------

  /** The first line that is not blank is a timestamp. */
  predicate IsTimed(lines: seq<string>) {
    lines != [] && if IsBlank(lines[0]) then IsTimed(lines[1..]) else IsStamp(lines[0])
  }

  predicate AllBlank(lines: seq<string>) { forall i :: 0 <= i < |lines| ==> IsBlank(lines[i]) }

  function Emit(cmd: string, ts: int): seq<Record> { if cmd == "" then [] else [Record(cmd, ts * 1_000_000)] }

  /** Results of two consecutive parses put together; an exception wins. */
  function Then(a: Option<seq<Record>>, b: Option<seq<Record>>): Option<seq<Record>> {
    if a.None? || b.None? then None else Some(a.value + b.value)
  }

  function Extend(cmd: string, line: string): string { if cmd == "" then line else cmd + "\n" + line }

  /** The timestamped format, from a point at which `cmd` has been collected under timestamp `ts`. */
  function ParseTimed(lines: seq<string>, ts: int, cmd: string): Option<seq<Record>> {
    if lines == [] then Some(Emit(cmd, ts))
    else if IsStamp(lines[0]) then
      if Seconds(lines[0]) > MAX_SECONDS then None
      else Then(Some(Emit(cmd, ts)), ParseTimed(lines[1..], Seconds(lines[0]), ""))
    else if !IsBlank(lines[0]) || cmd != "" then ParseTimed(lines[1..], ts, Extend(cmd, lines[0]))
    else ParseTimed(lines[1..], ts, cmd)
  }

  function ParsePlain(lines: seq<string>): seq<Record> {
    if lines == [] then [] else Emit(Trim(lines[0]), 0) + ParsePlain(lines[1..])
  }

  function ParseLines(lines: seq<string>): Option<seq<Record>> {
    if IsTimed(lines) then ParseTimed(lines, 0, "") else Some(ParsePlain(lines))
  }

  /** The parse of a history file; None when a timestamp does not fit 64 bits. */
  function Parse(content: string): Option<seq<Record>> { ParseLines(Lines(content)) }

  // ---- the parser ---------------------------------------------------------------------------------

  method TrimLine(s: string) returns (r: string)
    ensures r == Trim(s)
  {
    var start := 0;
    while start < |s| && IsSpace(s[start])
      invariant 0 <= start <= |s| && TrimLeft(s) == TrimLeft(s[start..])
    {
      start := start + 1;
    }
    var end := |s|;
    assert TrimLeft(s) == s[start..end];
    while end != start && IsSpace(s[end - 1])
      invariant start <= end <= |s| && Trim(s) == TrimRight(s[start..end])
    {
      assert s[start..end][..end - start - 1] == s[start..end - 1];
      end := end - 1;
    }
    r := s[start..end];
  }

  method DetectTimestamps(lines: seq<string>) returns (timed: bool)
    ensures timed == IsTimed(lines)
  {
    for i := 0 to |lines|
      invariant IsTimed(lines) == IsTimed(lines[i..])
    {
      var t := TrimLine(lines[i]);
      if t != "" {
        return IsTimestamp(t);
      }
    }
    return false;
  }

  /** The loop over the lines of a timestamped file. */
  method ParseTimedLines(lines: seq<string>) returns (result: Option<seq<Record>>)
    ensures result == ParseTimed(lines, 0, "")
  {
    var out: seq<Record> := [];
    var ts: int := 0;
    var cmd := "";
    assert lines[0..] == lines;
    ThenNothing(ParseTimed(lines, 0, ""));
    for i := 0 to |lines|
      invariant ParseTimed(lines, 0, "") == Then(Some(out), ParseTimed(lines[i..], ts, cmd))
    {
      var trimmed := TrimLine(lines[i]);
      ghost var rest := lines[i + 1..];
      assert lines[i..][1..] == rest && lines[i..][0] == lines[i];
      if IsTimestamp(trimmed) {
        var seconds := Decimal.Value(trimmed[1..]);
        if seconds > MAX_SECONDS {
          return None;
        }
        ThenAssociates(Some(out), Some(Emit(cmd, ts)), ParseTimed(rest, seconds, ""));
        assert seconds == Seconds(lines[i]);
        ghost var collected := out + Emit(cmd, ts);
        assert ParseTimed(lines, 0, "") == Then(Some(collected), ParseTimed(rest, seconds, ""));
        if cmd != "" {
          out := out + [Record(cmd, ts * 1_000_000)];
        }
        assert out == collected;
        ts := seconds;
        cmd := "";
      } else if trimmed != "" || cmd != "" {
        ghost var extended := Extend(cmd, lines[i]);
        if cmd != "" {
          cmd := cmd + "\n";
        }
        cmd := cmd + lines[i];
        assert cmd == extended;
      }
    }
    assert lines[|lines|..] == [];
    assert out + [] == out;
    if cmd != "" {
      out := out + [Record(cmd, ts * 1_000_000)];
    }
    return Some(out);
  }

  /** The loop over the lines of a plain file. */
  method ParsePlainLines(lines: seq<string>) returns (out: seq<Record>)
    ensures out == ParsePlain(lines)
  {
    out := [];
    for i := 0 to |lines|
      invariant ParsePlain(lines) == out + ParsePlain(lines[i..])
    {
      var cmd := TrimLine(lines[i]);
      ghost var tail := ParsePlain(lines[i + 1..]);
      assert lines[i..][1..] == lines[i + 1..];
      assert out + (Emit(cmd, 0) + tail) == (out + Emit(cmd, 0)) + tail;
      if cmd != "" {
        out := out + [Record(cmd, 0)];
      }
    }
  }

  method ParseHistoryBuffer(content: string) returns (result: Option<seq<Record>>)
    ensures result == Parse(content)
  {
    if content == "" {
      return Some([]);
    }
    var lines := Lines(content);
    var timed := DetectTimestamps(lines);
    if timed {
      result := ParseTimedLines(lines);
    } else {
      var out := ParsePlainLines(lines);
      result := Some(out);
    }
  }

  lemma {:induction false} ThenNothing(a: Option<seq<Record>>)
    ensures Then(Some([]), a) == a
  {
    if a.Some? { assert [] + a.value == a.value; }
  }

  lemma {:induction false} ThenAssociates(a: Option<seq<Record>>, b: Option<seq<Record>>, c: Option<seq<Record>>)
    ensures Then(a, Then(b, c)) == Then(Then(a, b), c)
  {
    if a.Some? && b.Some? && c.Some? {
      assert a.value + (b.value + c.value) == (a.value + b.value) + c.value;
    }
  }

  // ---- appending to a file ------------------------------------------------------------------------

  /** Every line is finished. */
  predicate IsComplete(content: string) { content == "" || content[|content| - 1] == '\n' }

  lemma {:induction false} LineEndOfConcat(a: string, b: string)
    requires LineEnd(a) < |a|
    ensures LineEnd(a + b) == LineEnd(a)
  {
    if a[0] != '\n' {
      assert (a + b)[1..] == a[1..] + b;
      LineEndOfConcat(a[1..], b);
    }
  }

  /** The lines of a file that has been appended to. */
  lemma {:induction false} LinesConcat(a: string, b: string)
    requires IsComplete(a)
    ensures Lines(a + b) == Lines(a) + Lines(b)
    decreases |a|
  {
    if a == "" {
      assert a + b == b;
    } else {
      var i := LineEnd(a);
      assert a[|a| - 1] == '\n';
      LineEndOfConcat(a, b);
      assert (a + b)[..i] == a[..i] && (a + b)[i + 1..] == a[i + 1..] + b;
      LinesConcat(a[i + 1..], b);
    }
  }

  lemma {:induction false} PlainConcat(a: seq<string>, b: seq<string>)
    ensures ParsePlain(a + b) == ParsePlain(a) + ParsePlain(b)
  {
    if a == [] {
      assert a + b == b;
    } else {
      assert (a + b)[1..] == a[1..] + b;
      PlainConcat(a[1..], b);
    }
  }

  /** A timestamp line cuts the timestamped format: what comes before is finished by it. */
  lemma {:induction false} TimedConcat(a: seq<string>, b: seq<string>, ts: int, cmd: string)
    requires b == [] || IsStamp(b[0])
    ensures ParseTimed(a + b, ts, cmd) == Then(ParseTimed(a, ts, cmd), ParseTimed(b, 0, ""))
  {
    if a == [] {
      assert a + b == b;
      if b == [] {
        assert Emit(cmd, ts) + [] == Emit(cmd, ts);
      } else if Seconds(b[0]) <= MAX_SECONDS {
        var rest := ParseTimed(b[1..], Seconds(b[0]), "");
        assert Emit("", 0) == [];
        ThenNothing(rest);
      }
    } else {
      assert (a + b)[1..] == a[1..] + b;
      var rest := a[1..];
      if IsStamp(a[0]) {
        if Seconds(a[0]) <= MAX_SECONDS {
          TimedConcat(rest, b, Seconds(a[0]), "");
          ThenAssociates(Some(Emit(cmd, ts)), ParseTimed(rest, Seconds(a[0]), ""), ParseTimed(b, 0, ""));
        }
      } else if !IsBlank(a[0]) || cmd != "" {
        TimedConcat(rest, b, ts, Extend(cmd, a[0]));
      } else {
        TimedConcat(rest, b, ts, cmd);
      }
    }
  }

  lemma {:induction false} StampIsNotBlank(line: string)
    requires IsStamp(line)
    ensures !IsBlank(line)
  {
  }

  lemma {:induction false} TimedOfConcat(a: seq<string>, b: seq<string>)
    ensures IsTimed(a + b) <==> if AllBlank(a) then IsTimed(b) else IsTimed(a)
  {
    if a == [] {
      assert a + b == b;
    } else {
      assert (a + b)[1..] == a[1..] + b;
      TimedOfConcat(a[1..], b);
      assert AllBlank(a) <==> IsBlank(a[0]) && AllBlank(a[1..]);
    }
  }

  lemma {:induction false} BlankPrefix(a: seq<string>, b: seq<string>)
    requires AllBlank(a)
    ensures ParseTimed(a + b, 0, "") == ParseTimed(b, 0, "")
    ensures ParsePlain(a) == [] && !IsTimed(a)
  {
    if a == [] {
      assert a + b == b;
    } else {
      assert (a + b)[1..] == a[1..] + b;
      assert !IsStamp(a[0]);
      BlankPrefix(a[1..], b);
    }
  }

  /** Lines that may be appended to a file without changing how it reads: a plain file gets lines of
      which the first that is not blank is no timestamp, a timestamped file lines that begin with a
      timestamp; a blank file may become either. */
  predicate MayFollow(a: seq<string>, b: seq<string>) {
    AllBlank(a) || (if IsTimed(a) then b == [] || IsStamp(b[0]) else !IsTimed(b))
  }

  /** Appending such lines appends their commands. */
  lemma {:induction false} ParseAppended(a: seq<string>, b: seq<string>)
    requires MayFollow(a, b)
    ensures ParseLines(a + b) == Then(ParseLines(a), ParseLines(b))
  {
    TimedOfConcat(a, b);
    PlainConcat(a, b);
    if AllBlank(a) {
      BlankPrefix(a, b);
      ThenNothing(ParseLines(b));
      if !IsTimed(b) { assert [] + ParsePlain(b) == ParsePlain(b); }
    } else if IsTimed(a) {
      TimedConcat(a, b, 0, "");
      if b != [] { StampIsNotBlank(b[0]); }
    }
  }

  /** What may follow step by step may follow at once. */
  lemma {:induction false} MayFollowConcat(a: seq<string>, b: seq<string>, c: seq<string>)
    requires MayFollow(a, b) && MayFollow(a + b, c)
    ensures MayFollow(a, b + c)
  {
    TimedOfConcat(a, b);
    TimedOfConcat(b, c);
    assert AllBlank(a + b) <==> AllBlank(a) && AllBlank(b) by {
      if AllBlank(a + b) {
        assert forall i :: 0 <= i < |a| ==> a[i] == (a + b)[i];
        assert forall i :: 0 <= i < |b| ==> b[i] == (a + b)[|a| + i];
      }
    }
    if b == [] { assert a + b == a && b + c == c; }
  }

  // ---- when a plain file may be appended to -------------------------------------------------------

  /** A line that looks like a timestamp is trimmed already. */
  lemma {:induction false} TimestampIsTrimmed(line: string)
    requires IsTimestamp(line)
    ensures Trim(line) == line
  {
    assert !IsSpace(line[0]) && !IsSpace(line[|line| - 1]);
  }

  /** The timestamped format never yields a command that looks like a timestamp. */
  lemma {:induction false} TimedHasNoTimestamps(lines: seq<string>, ts: int, cmd: string, i: nat)
    requires !IsTimestamp(cmd) && ParseTimed(lines, ts, cmd).Some? && i < |ParseTimed(lines, ts, cmd).value|
    ensures !IsTimestamp(ParseTimed(lines, ts, cmd).value[i].command)
  {
    if lines != [] {
      var rest := lines[1..];
      if IsStamp(lines[0]) {
        var k := |Emit(cmd, ts)|;
        if i >= k { TimedHasNoTimestamps(rest, Seconds(lines[0]), "", i - k); }
      } else if !IsBlank(lines[0]) || cmd != "" {
        var next := Extend(cmd, lines[0]);
        if cmd != "" { assert next[|cmd|] == '\n'; }
        assert !IsTimestamp(next) by {
          if cmd == "" && IsTimestamp(next) { TimestampIsTrimmed(next); }
        }
        TimedHasNoTimestamps(rest, ts, next, i);
      } else {
        TimedHasNoTimestamps(rest, ts, cmd, i);
      }
    }
  }

  lemma {:induction false} PlainStartsWithStamp(lines: seq<string>)
    requires IsTimed(lines)
    ensures ParsePlain(lines) != [] && IsTimestamp(ParsePlain(lines)[0].command)
  {
    if IsBlank(lines[0]) {
      PlainStartsWithStamp(lines[1..]);
      assert Emit(Trim(lines[0]), 0) == [];
    } else {
      assert Emit(Trim(lines[0]), 0) == [Record(Trim(lines[0]), 0)];
    }
  }

  /** For a plain file the condition is exact: lines that start with a timestamp would be read as
      commands in the file, but as timestamps on their own. */
  lemma {:induction false} PlainAppended(a: seq<string>, b: seq<string>)
    requires !IsTimed(a)
    ensures ParseLines(a + b) == Then(ParseLines(a), ParseLines(b)) <==> MayFollow(a, b)
  {
    if MayFollow(a, b) {
      ParseAppended(a, b);
    } else {
      TimedOfConcat(a, b);
      PlainConcat(a, b);
      PlainStartsWithStamp(b);
      var p, t, before := ParsePlain(b), ParseTimed(b, 0, ""), ParsePlain(a);
      if t.Some? {
        if t.value != [] { TimedHasNoTimestamps(b, 0, "", 0); }
        assert t.value != p;
        assert (before + p)[|before|..] == p && (before + t.value)[|before|..] == t.value;
      }
    }
  }

  /** A timestamp line appended to a plain file is a command of the file, but none on its own. */
  lemma {:induction false} StampAfterPlain()
    ensures Parse("ls\n") == Some([Record("ls", 0)]) && Parse("#1\n") == Some([])
    ensures Parse("ls\n" + "#1\n") == Some([Record("ls", 0), Record("#1", 0)])
  {
    hide Lines, ParseLines, IsComplete;
    OneLine("ls");
    OneLine("#1");
    assert "ls" + "\n" == "ls\n" && "#1" + "\n" == "#1\n";
    LinesConcat("ls\n", "#1\n");
    assert ["ls"] + ["#1"] == ["ls", "#1"];
    PlainAndStamp();
  }

  lemma {:induction false} PlainAndStamp()
    ensures ParseLines(["ls"]) == Some([Record("ls", 0)]) && ParseLines(["#1"]) == Some([])
    ensures ParseLines(["ls", "#1"]) == Some([Record("ls", 0), Record("#1", 0)])
  {
    var a, b, both := ["ls"], ["#1"], ["ls", "#1"];
    TrimmedTwo("ls");
    TrimmedTwo("#1");
    assert both[1..] == b && a[1..] == [] && b[1..] == [];
    assert !IsTimed(a) && !IsTimed(both) && IsTimed(b);
    assert ParsePlain(b) == Emit("#1", 0) + [] == [Record("#1", 0)];
    assert ParsePlain(a) == Emit("ls", 0) + [] == [Record("ls", 0)];
    assert ParsePlain(both) == Emit("ls", 0) + ParsePlain(b) == [Record("ls", 0), Record("#1", 0)];
    OneSecond();
  }

  lemma {:induction false} OneSecond()
    ensures ParseTimed(["#1"], 0, "") == Some([])
  {
    TrimmedTwo("#1");
    assert "#1"[1..] == "1" && "1"[..0] == "" && Decimal.Value("1") == 1;
    assert IsStamp("#1") && Seconds("#1") == 1;
    assert ["#1"][1..] == [] && ParseTimed([], 1, "") == Some([]);
    ThenNothing(ParseTimed([], 1, ""));
  }

  lemma {:induction false} OneLine(c: string)
    requires '\n' !in c
    ensures Lines(c + "\n") == [c] && IsComplete(c + "\n")
  {
    var s := c + "\n";
    assert s[|c|] == '\n' && forall k :: 0 <= k < |c| ==> c[k] in c && s[k] == c[k] && s[k] != '\n';
    assert LineEnd(s) == |c|;
    assert s[..|c|] == c && s[|c| + 1..] == "";
  }

  lemma {:induction false} TrimmedTwo(c: string)
    requires |c| == 2 && !IsSpace(c[0]) && !IsSpace(c[1])
    ensures Trim(c) == c
  {
  }
}
