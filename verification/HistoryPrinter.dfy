/** The parser against the two writers of history files: the seeding of a shell's plain history, and the
    shell's own format with a timestamp line before each command. */
module HistoryPrinter {
  import opened Options
  import opened HistoryParser
  import opened Whitespace
  import Decimal

  // ---- sizes --------------------------------------------------------------------------------------

  /** Characters that a list of lines takes in a file, counting the newlines. */
  function LineSize(lines: seq<string>): nat {
    if lines == [] then 0 else |lines[0]| + 1 + LineSize(lines[1..])
  }

  function Size(records: seq<Record>): nat {
    if records == [] then 0 else |records[0].command| + 1 + Size(records[1..])
  }

  /** Size of a command that is being collected; an empty one is never emitted. */
  function Weight(cmd: string): nat { if cmd == "" then 0 else |cmd| + 1 }

  lemma {:induction false} SizeConcat(a: seq<Record>, b: seq<Record>)
    ensures Size(a + b) == Size(a) + Size(b)
  {
    if a == [] {
      assert a + b == b;
    } else {
      assert (a + b)[1..] == a[1..] + b;
      SizeConcat(a[1..], b);
    }
  }

  lemma {:induction false} EmitSize(cmd: string, ts: int)
    ensures Size(Emit(cmd, ts)) == Weight(cmd)
  {
    if cmd != "" { assert Emit(cmd, ts)[1..] == []; }
  }

  /** No character of a finished file is lost in its lines, and lines hold no newline. */
  lemma {:induction false} LinesKeepSize(s: string)
    requires IsComplete(s)
    ensures LineSize(Lines(s)) == |s|
    ensures forall i :: 0 <= i < |Lines(s)| ==> '\n' !in Lines(s)[i]
    decreases |s|
  {
    if s != "" {
      assert s[|s| - 1] == '\n';
      var i := LineEnd(s);
      var rest := s[i + 1..];
      LinesKeepSize(rest);
      assert Lines(s) == [s[..i]] + Lines(rest);
      assert Lines(s)[1..] == Lines(rest);
    }
  }

  lemma {:induction false} LineEndOf(c: string, rest: string)
    requires '\n' !in c
    ensures LineEnd(c + "\n" + rest) == |c|
  {
    var s := c + "\n" + rest;
    assert s[|c|] == '\n';
    assert forall k :: 0 <= k < |c| ==> c[k] in c && s[k] == c[k] && s[k] != '\n';
  }

  // ---- plain files --------------------------------------------------------------------------------

  /** One command per line. */
  function PrintPlain(cmds: seq<string>): string {
    if cmds == [] then "" else cmds[0] + "\n" + PrintPlain(cmds[1..])
  }

  function PlainRecords(cmds: seq<string>): seq<Record> {
    seq(|cmds|, i requires 0 <= i < |cmds| => Record(cmds[i], 0))
  }

  predicate IsPlainCommand(c: string) { c != "" && Trim(c) == c && '\n' !in c }

  /** Trimmed, non-empty commands on one line, the first of which is not taken for a timestamp. */
  predicate PrintsPlain(cmds: seq<string>) {
    && (forall i :: 0 <= i < |cmds| ==> IsPlainCommand(cmds[i]))
    && (cmds != [] ==> !IsTimestamp(cmds[0]))
  }

  lemma {:induction false} PrintPlainIsComplete(cmds: seq<string>)
    ensures IsComplete(PrintPlain(cmds)) && |PrintPlain(cmds)| == LineSize(cmds)
  {
    if cmds != [] { PrintPlainIsComplete(cmds[1..]); }
  }

  lemma {:induction false} LinesOfPrintPlain(cmds: seq<string>)
    requires forall i :: 0 <= i < |cmds| ==> '\n' !in cmds[i]
    ensures Lines(PrintPlain(cmds)) == cmds
  {
    if cmds != [] {
      var s := PrintPlain(cmds);
      LineEndOf(cmds[0], PrintPlain(cmds[1..]));
      LinesOfPrintPlain(cmds[1..]);
      assert s[..|cmds[0]|] == cmds[0] && s[|cmds[0]| + 1..] == PrintPlain(cmds[1..]);
      assert [cmds[0]] + cmds[1..] == cmds;
    }
  }

  lemma {:induction false} PlainRecordsSize(cmds: seq<string>)
    ensures Size(PlainRecords(cmds)) == LineSize(cmds)
  {
    if cmds != [] {
      assert PlainRecords(cmds)[1..] == PlainRecords(cmds[1..]);
      PlainRecordsSize(cmds[1..]);
    }
  }

  lemma {:induction false} TrimIsShorter(s: string)
    ensures |Trim(s)| <= |s|
    ensures |Trim(s)| == |s| ==> Trim(s) == s
  {
    TrimLeftIsShorter(s);
    TrimRightIsShorter(TrimLeft(s));
  }

  lemma {:induction false} TrimLeftIsShorter(s: string)
    ensures |TrimLeft(s)| <= |s|
    ensures |TrimLeft(s)| == |s| ==> TrimLeft(s) == s
  {
    if s != "" && IsSpace(s[0]) { TrimLeftIsShorter(s[1..]); }
  }

  lemma {:induction false} TrimRightIsShorter(s: string)
    ensures |TrimRight(s)| <= |s|
    ensures |TrimRight(s)| == |s| ==> TrimRight(s) == s
  {
    if s != "" && IsSpace(s[|s| - 1]) { TrimRightIsShorter(s[..|s| - 1]); }
  }

  /** A plain parse keeps every character of the lines exactly when each line is a trimmed command. */
  lemma {:induction false} PlainSize(lines: seq<string>)
    ensures Size(ParsePlain(lines)) <= LineSize(lines)
    ensures Size(ParsePlain(lines)) == LineSize(lines) ==>
              ParsePlain(lines) == PlainRecords(lines) && forall i :: 0 <= i < |lines| ==>
                lines[i] != "" && Trim(lines[i]) == lines[i]
  {
    if lines != [] {
      var head := Emit(Trim(lines[0]), 0);
      PlainSize(lines[1..]);
      SizeConcat(head, ParsePlain(lines[1..]));
      EmitSize(Trim(lines[0]), 0);
      TrimIsShorter(lines[0]);
      if Size(ParsePlain(lines)) == LineSize(lines) {
        assert head == [Record(lines[0], 0)];
        assert PlainRecords(lines) == head + PlainRecords(lines[1..]);
        assert forall i :: 0 < i < |lines| ==> lines[i] == lines[1..][i - 1];
      }
    }
  }

  lemma {:induction false} PlainOfCommands(cmds: seq<string>)
    requires forall i :: 0 <= i < |cmds| ==> cmds[i] != "" && Trim(cmds[i]) == cmds[i]
    ensures ParsePlain(cmds) == PlainRecords(cmds)
  {
    if cmds != [] {
      PlainOfCommands(cmds[1..]);
      assert PlainRecords(cmds) == [Record(cmds[0], 0)] + PlainRecords(cmds[1..]);
    }
  }

  lemma {:induction false} PlainRecordsInjective(a: seq<string>, b: seq<string>)
    requires PlainRecords(a) == PlainRecords(b)
    ensures a == b
  {
    assert |a| == |PlainRecords(a)| == |PlainRecords(b)| == |b|;
    forall i | 0 <= i < |a| ensures a[i] == b[i] {
      assert PlainRecords(a)[i] == PlainRecords(b)[i];
    }
  }

  /** Commands written one per line are read back as they were exactly when each is trimmed, non-empty
      and on one line, and the first does not look like a timestamp. */
  lemma {:induction false} ParseOfPrintPlain(cmds: seq<string>)
    ensures Parse(PrintPlain(cmds)) == Some(PlainRecords(cmds)) <==> PrintsPlain(cmds)
  {
    if PrintsPlain(cmds) {
      LinesOfPrintPlain(cmds);
      PlainOfCommands(cmds);
    }
    if Parse(PrintPlain(cmds)) == Some(PlainRecords(cmds)) {
      var lines := Lines(PrintPlain(cmds));
      PrintPlainIsComplete(cmds);
      LinesKeepSize(PrintPlain(cmds));
      PlainRecordsSize(cmds);
      if IsTimed(lines) {
        TimedIsNotClean(lines);
        TimedSize(lines, 0, "");
        assert false;
      } else {
        PlainSize(lines);
        PlainRecordsInjective(lines, cmds);
      }
    }
  }

  // ---- files with timestamps ----------------------------------------------------------------------

  datatype Stamped = Stamped(seconds: nat, command: string)

  /** A timestamp line and the lines of the command, for each record. */
  function PrintTimed(records: seq<Stamped>): string {
    if records == [] then ""
    else StampLine(records[0].seconds) + "\n" + (records[0].command + "\n" + PrintTimed(records[1..]))
  }

  function StampLine(seconds: nat): string { "#" + Decimal.Print(seconds) }

  function TimedRecords(records: seq<Stamped>): seq<Record> {
    seq(|records|, i requires 0 <= i < |records| => Record(records[i].command, records[i].seconds * 1_000_000))
  }

  /** Lines that are collected whole after `cmd`: none is a timestamp, and the first is not skipped. */
  predicate IsClean(lines: seq<string>, cmd: string) {
    && (forall i :: 0 <= i < |lines| ==> !IsStamp(lines[i]))
    && (cmd != "" || lines == [] || !IsBlank(lines[0]))
  }

  predicate IsTimedCommand(r: Stamped) {
    IsClean(Lines(r.command + "\n"), "") && r.seconds <= MAX_SECONDS
  }

  predicate PrintsTimed(records: seq<Stamped>) { forall i :: 0 <= i < |records| ==> IsTimedCommand(records[i]) }

  /** A timestamped parse keeps every character after the timestamps exactly when the lines are clean. */
  lemma {:induction false} TimedSize(lines: seq<string>, ts: int, cmd: string)
    requires ParseTimed(lines, ts, cmd).Some?
    ensures Size(ParseTimed(lines, ts, cmd).value) <= LineSize(lines) + Weight(cmd)
    ensures Size(ParseTimed(lines, ts, cmd).value) == LineSize(lines) + Weight(cmd) ==> IsClean(lines, cmd)
  {
    EmitSize(cmd, ts);
    if lines != [] {
      var rest := lines[1..];
      if IsStamp(lines[0]) {
        TimedSize(rest, Seconds(lines[0]), "");
        SizeConcat(Emit(cmd, ts), ParseTimed(rest, Seconds(lines[0]), "").value);
      } else if !IsBlank(lines[0]) || cmd != "" {
        TimedSize(rest, ts, Extend(cmd, lines[0]));
        assert |Extend(cmd, lines[0])| + 1 == Weight(cmd) + |lines[0]| + 1;
      } else {
        TimedSize(rest, ts, cmd);
      }
    }
  }

  lemma {:induction false} TimedIsNotClean(lines: seq<string>)
    requires IsTimed(lines)
    ensures !IsClean(lines, "")
  {
    if IsBlank(lines[0]) { TimedIsNotClean(lines[1..]); }
  }

  /** Lines joined with newlines. */
  function Join(lines: seq<string>): string
    requires lines != []
  {
    if |lines| == 1 then lines[0] else lines[0] + "\n" + Join(lines[1..])
  }

  lemma {:induction false} JoinOfLines(c: string)
    ensures Lines(c + "\n") != [] && Join(Lines(c + "\n")) == c
    decreases |c|
  {
    var s := c + "\n";
    var i := LineEnd(s);
    assert s[|c|] == '\n' && i <= |c|;
    var head, rest := s[..i], s[i + 1..];
    assert Lines(s) == [head] + Lines(rest);
    assert Lines(s)[1..] == Lines(rest);
    if i == |c| {
      assert rest == "" && head == c;
    } else {
      var tail := c[i + 1..];
      assert rest == tail + "\n";
      JoinOfLines(tail);
      assert c[i] == '\n';
      assert c == head + "\n" + tail;
    }
  }

  lemma {:induction false} ExtendTwice(cmd: string, a: string, b: string)
    requires a != "" || cmd != ""
    ensures Extend(Extend(cmd, a), b) == Extend(cmd, a + "\n" + b)
  {
    if cmd != "" {
      assert cmd + "\n" + a + "\n" + b == cmd + "\n" + (a + "\n" + b);
    }
  }

  lemma {:induction false} CleanIsCollected(lines: seq<string>, ts: int, cmd: string)
    requires IsClean(lines, cmd) && lines != []
    ensures ParseTimed(lines, ts, cmd) == Some([Record(Extend(cmd, Join(lines)), ts * 1_000_000)])
  {
    var next := Extend(cmd, lines[0]);
    assert !IsStamp(lines[0]) && next != "";
    if |lines| > 1 {
      assert IsClean(lines[1..], next);
      CleanIsCollected(lines[1..], ts, next);
      ExtendTwice(cmd, lines[0], Join(lines[1..]));
    }
  }

  lemma {:induction false} StampLineIsStamp(seconds: nat)
    ensures IsStamp(StampLine(seconds)) && Seconds(StampLine(seconds)) == seconds
    ensures Lines(StampLine(seconds) + "\n") == [StampLine(seconds)]
  {
    var line := StampLine(seconds);
    var digits := Decimal.Print(seconds);
    assert line[1..] == digits;
    assert forall i :: 1 <= i < |line| ==> line[i] == digits[i - 1];
    assert TrimLeft(line) == line && TrimRight(line) == line;
    Decimal.ValueOfPrint(seconds);
    assert forall i :: 0 <= i < |line| ==> line[i] != '\n';
    LineEndOf(line, "");
    assert line + "\n" + "" == line + "\n";
    assert (line + "\n")[..|line|] == line && (line + "\n")[|line| + 1..] == "";
  }

  /** What one record contributes to the file. */
  function RecordLines(r: Stamped): seq<string> { [StampLine(r.seconds)] + Lines(r.command + "\n") }

  lemma {:induction false} LinesOfPrintTimed(records: seq<Stamped>)
    requires records != []
    ensures Lines(PrintTimed(records)) == RecordLines(records[0]) + Lines(PrintTimed(records[1..]))
  {
    hide Lines, LineEnd, StampLine;
    var r := records[0];
    var rest := PrintTimed(records[1..]);
    var stamp := StampLine(r.seconds) + "\n";
    var command := r.command + "\n";
    var printed := command + rest;
    LinesConcat(command, rest);
    LinesConcat(stamp, printed);
    StampLineIsStamp(r.seconds);
    var head, body, tail := Lines(stamp), Lines(command), Lines(rest);
    assert head + (body + tail) == (head + body) + tail;
  }

  /** How one record reads. */
  lemma {:induction false} RecordReads(r: Stamped)
    ensures ParseTimed(RecordLines(r), 0, "")
         == if r.seconds > MAX_SECONDS then None else ParseTimed(Lines(r.command + "\n"), r.seconds, "")
  {
    StampLineIsStamp(r.seconds);
    var lines := RecordLines(r);
    assert lines[1..] == Lines(r.command + "\n");
    ThenNothing(ParseTimed(lines[1..], r.seconds, ""));
  }

  /** The file reads record by record. */
  lemma {:induction false} TimedReads(records: seq<Stamped>)
    ensures ParseTimed(Lines(PrintTimed(records)), 0, "")
         == if records == [] then Some([])
            else Then(ParseTimed(RecordLines(records[0]), 0, ""), ParseTimed(Lines(PrintTimed(records[1..])), 0, ""))
    ensures records != [] ==> IsTimed(Lines(PrintTimed(records)))
  {
    if records != [] {
      LinesOfPrintTimed(records);
      StampLineIsStamp(records[0].seconds);
      var rest := records[1..];
      if rest != [] {
        LinesOfPrintTimed(rest);
        StampLineIsStamp(rest[0].seconds);
      }
      TimedConcat(RecordLines(records[0]), Lines(PrintTimed(rest)), 0, "");
    }
  }

  /** One record is read back exactly when it is a timestamped command, and otherwise characters of its
      command are lost. */
  lemma {:induction false} RecordReadsBack(r: Stamped)
    ensures IsTimedCommand(r) ==>
              ParseTimed(RecordLines(r), 0, "") == Some([Record(r.command, r.seconds * 1_000_000)])
    ensures ParseTimed(RecordLines(r), 0, "").Some? ==> Size(ParseTimed(RecordLines(r), 0, "").value) <= |r.command| + 1
    ensures ParseTimed(RecordLines(r), 0, "").Some?
            && Size(ParseTimed(RecordLines(r), 0, "").value) == |r.command| + 1 ==>
              IsTimedCommand(r)
  {
    var lines := Lines(r.command + "\n");
    RecordReads(r);
    JoinOfLines(r.command);
    LinesKeepSize(r.command + "\n");
    if IsTimedCommand(r) { CleanIsCollected(lines, r.seconds, ""); }
    if ParseTimed(RecordLines(r), 0, "").Some? { TimedSize(lines, r.seconds, ""); }
  }

  lemma {:induction false} TimedTotal(records: seq<Stamped>)
    requires ParseTimed(Lines(PrintTimed(records)), 0, "").Some?
    ensures Size(ParseTimed(Lines(PrintTimed(records)), 0, "").value) <= Size(TimedRecords(records))
    ensures Size(ParseTimed(Lines(PrintTimed(records)), 0, "").value) == Size(TimedRecords(records)) ==>
              PrintsTimed(records)
  {
    TimedReads(records);
    if records != [] {
      var head, tail := ParseTimed(RecordLines(records[0]), 0, ""), ParseTimed(Lines(PrintTimed(records[1..])), 0, "");
      RecordReadsBack(records[0]);
      TimedTotal(records[1..]);
      SizeConcat(head.value, tail.value);
      assert TimedRecords(records)[1..] == TimedRecords(records[1..]);
      assert forall i :: 0 < i < |records| ==> records[i] == records[1..][i - 1];
    }
  }

  lemma {:induction false} TimedReadsBack(records: seq<Stamped>)
    requires PrintsTimed(records)
    ensures ParseTimed(Lines(PrintTimed(records)), 0, "") == Some(TimedRecords(records))
  {
    hide ParseTimed, PrintTimed, RecordLines, IsTimedCommand;
    TimedReads(records);
    if records == [] {
      assert TimedRecords(records) == [];
    } else {
      assert PrintsTimed(records[1..]);
      TimedReadsBack(records[1..]);
      RecordReadsBack(records[0]);
      assert TimedRecords(records)
          == [Record(records[0].command, records[0].seconds * 1_000_000)] + TimedRecords(records[1..]);
    }
  }

  /** Records written with timestamp lines, multi-line commands included, are read back as they were
      exactly when the first line of each command is not blank, none of its lines is a timestamp, and
      the timestamp fits 64 bits. */
  lemma {:induction false} ParseOfPrintTimed(records: seq<Stamped>)
    ensures Parse(PrintTimed(records)) == Some(TimedRecords(records)) <==> PrintsTimed(records)
  {
    TimedReads(records);
    if records == [] {
      assert TimedRecords(records) == [];
    } else if PrintsTimed(records) {
      TimedReadsBack(records);
    } else if Parse(PrintTimed(records)).Some? {
      TimedTotal(records);
    }
  }
}
