/** JSON values, and the typed access to them of the JSON library that the program uses. */
module Json {
  import opened Integers

  /** The keys of objects: those of the workspace format, and all others. */
  datatype Key =
    | Id | Name | WorkingDirectory | CreatedAt | LastSavedAt | SchemaVersion | Generation | Tags | Windows | Ui
    | Snapshots | FocusWindowId
    | Label | Title | X | Y | Width | Height | LastActive | Tabs | FocusTabId | FocusPaneId
    | Kind | PaneTree | NoteState
    | Pane | Orientation | Ratio | First | Second
    | State | Cwd | Shell | Cols | Rows | CommandHistory | SnapshotData | Scrollback | InterruptedCommand
    | Command | TimestampUs | Pinned | Source
    | DocumentId | Path | Content | Modified | Cursor | Scroll | PreviewEnabled | SplitRatio | SyncScroll
    | DirectoryTree | CurrentDir | Expanded | Selected | FilterText | ScrollAnchor | AnchorOffset
    | Other(text: string)

  /** Integers are stored in 64 bits, signed or unsigned. */
  type jint = x: int | -0x8000_0000_0000_0000 <= x < 0x1_0000_0000_0000_0000

  datatype Json =
    | Null
    | Bool(b: bool)
    | Int(i: jint)
    | Real(r: real)
    | Str(s: string)
    | Arr(items: seq<Json>)
    | Obj(fields: map<Key, Json>)

  /** The outcome of reading: a value, or an exception. */
  datatype Result<+T> = Throws | Ok(value: T)
  {
    predicate IsFailure() { Throws? }

    function PropagateFailure<U>(): Result<U>
      requires IsFailure()
    {
      Throws
    }

    function Extract(): T
      requires !IsFailure()
    {
      value
    }
  }

  predicate Contains(j: Json, k: Key) { j.Obj? && k in j.fields }

  function At(j: Json, k: Key): (r: Json)
    requires Contains(j, k)
    ensures r < j
  {
    j.fields[k]
  }

  function Set(j: Json, k: Key, v: Json): Json
    requires j.Obj?
  {
    Obj(j.fields[k := v])
  }

  // ---- values of one type -------------------------------------------------------------------------

  function Trunc(r: real): int { if r >= 0.0 then r.Floor else -((-r).Floor) }

  function GetString(j: Json): Result<string> { if j.Str? then Ok(j.s) else Throws }

  function GetBool(j: Json): Result<bool> { if j.Bool? then Ok(j.b) else Throws }

  /** 64-bit integers and reals are read from any number. */
  function GetI64(j: Json): Result<i64> {
    match j
    case Int(i) => Ok(ToI64(i))
    case Real(r) => Ok(ToI64(Trunc(r)))
    case _ => Throws
  }

  function GetReal(j: Json): Result<real> {
    match j
    case Int(i) => Ok(i as real)
    case Real(r) => Ok(r)
    case _ => Throws
  }

  /** Narrower integers are read from booleans too. */
  function GetInt(j: Json): Result<int> {
    match j
    case Int(i) => Ok(i)
    case Real(r) => Ok(Trunc(r))
    case Bool(b) => Ok(if b then 1 else 0)
    case _ => Throws
  }

  // ---- members of an object, with a default for a missing one --------------------------------------

  function Member<T>(j: Json, k: Key, get: Json -> Result<T>, default: T): Result<T> {
    if !j.Obj? then Throws else if k in j.fields then get(j.fields[k]) else Ok(default)
  }

  function StringAt(j: Json, k: Key, default: string): Result<string> { Member(j, k, GetString, default) }

  function BoolAt(j: Json, k: Key): Result<bool> { Member(j, k, GetBool, false) }

  function RealAt(j: Json, k: Key, default: real): Result<real> { Member(j, k, GetReal, default) }

  function I64At(j: Json, k: Key): Result<i64> { Member(j, k, GetI64, 0) }

  function I32At(j: Json, k: Key, default: i32): Result<i32> {
    var n :- Member(j, k, GetInt, default);
    Ok(ToI32(n))
  }

  function U32At(j: Json, k: Key): Result<u32> {
    var n :- Member(j, k, GetInt, 0);
    Ok(ToU32(n))
  }

  // ---- lists --------------------------------------------------------------------------------------

  function ReadEach<T>(items: seq<Json>, read: Json -> Result<T>): Result<seq<T>> {
    if items == [] then Ok([])
    else
      var x :- read(items[0]);
      var rest :- ReadEach(items[1..], read);
      Ok([x] + rest)
  }

  function ReadArray<T>(j: Json, read: Json -> Result<T>): Result<seq<T>> {
    if j.Arr? then ReadEach(j.items, read) else Throws
  }

  function WriteArray<T>(xs: seq<T>, write: T -> Json): Json {
    Arr(seq(|xs|, i requires 0 <= i < |xs| => write(xs[i])))
  }

  function PutString(s: string): Json { Str(s) }

  /** What a loop over a value visits: the items of an array, nothing for null, and a value that is
      neither array nor object itself. Loops over objects are not part of this model. */
  function Elements(j: Json): Result<seq<Json>> {
    match j
    case Arr(items) => Ok(items)
    case Null => Ok([])
    case Obj(_) => Throws
    case _ => Ok([j])
  }

  lemma {:induction false} ReadEachIs<T>(items: seq<Json>, read: Json -> Result<T>, xs: seq<T>)
    requires |items| == |xs| && forall i :: 0 <= i < |items| ==> read(items[i]) == Ok(xs[i])
    ensures ReadEach(items, read) == Ok(xs)
  {
    if items != [] {
      ReadEachIs(items[1..], read, xs[1..]);
      assert [xs[0]] + xs[1..] == xs;
    }
  }

  /** A list that was read holds what each item reads as. */
  lemma {:induction false} ReadEachGives<T>(items: seq<Json>, read: Json -> Result<T>)
    requires ReadEach(items, read).Ok?
    ensures var xs := ReadEach(items, read).value;
            |xs| == |items| && forall i :: 0 <= i < |items| ==> read(items[i]) == Ok(xs[i])
  {
    if items != [] {
      ReadEachGives(items[1..], read);
      assert forall i :: 0 < i < |items| ==> items[i] == items[1..][i - 1];
    }
  }

  lemma {:induction false} StringsReadBack(xs: seq<string>)
    ensures ReadArray(WriteArray(xs, PutString), GetString) == Ok(xs)
  {
    ReadEachIs(WriteArray(xs, PutString).items, GetString, xs);
  }
}
