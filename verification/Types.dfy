/**
 The vocabulary shared by the storage, log and recovery modules: machine integers, byte strings,
 block identifiers, typed values and the six kinds of log record.
 */
module Types {

  datatype Option<+T> = None | Some(value: T)

  type byte = x: int | 0 <= x < 256
  type int32 = x: int | -0x8000_0000 <= x < 0x8000_0000

  /** `static_cast<int32_t>` of an unsigned 64-bit value. */
  function ToInt32(n: nat): (i: int32)
    ensures (n - i) % 0x1_0000_0000 == 0
  {
    var w := n % 0x1_0000_0000;
    if w < 0x8000_0000 then w else w - 0x1_0000_0000
  }

  /** `static_cast<size_t>` of an int32: negative values are sign-extended to 64 bits. */
  function ToSize(i: int32): nat {
    if i < 0 then i + 0x1_0000_0000_0000_0000 else i
  }

  /** A C++ std::string is a sequence of bytes. */
  type Str = seq<byte>

  /** The bytes of a text in ASCII. */
  function Ascii(s: string): (b: Str)
    requires forall k | 0 <= k < |s| :: s[k] < 128 as char
    ensures |b| == |s| && forall k | 0 <= k < |s| :: b[k] == s[k] as int
  {
    seq(|s|, k requires 0 <= k < |s| => s[k] as int)
  }

  datatype BlockId = BlockId(file: Str, num: int32)

  /** What one location of a page holds. */
  datatype Value = IntVal(i: int32) | StrVal(s: Str)

  predicate SameKind(a: Value, b: Value) {
    a.IntVal? <==> b.IntVal?
  }

  /** A location is a block and an offset in it; locations are taken not to overlap. */
  datatype Loc = Loc(blk: BlockId, off: nat)

  type Store = map<Loc, Value>

  /** The values of one block by their offsets. */
  type Cells = map<nat, Value>

  datatype LogRecord =
    | Start(tx: nat)
    | Commit(tx: nat)
    | Rollback(tx: nat)
    | SetInt(tx: nat, blk: BlockId, offset: nat, ival: int32)
    | SetString(tx: nat, blk: BlockId, offset: nat, sval: Str)
    | Checkpoint
  {
    predicate IsSet() {
      SetInt? || SetString?
    }

    /** The location whose old value an update record carries. */
    function Where(): Loc
      requires IsSet()
    {
      Loc(blk, offset)
    }

    function OldValue(): Value
      requires IsSet()
    {
      if SetInt? then IntVal(ival) else StrVal(sval)
    }
  }

  /** The update record logged by transaction `t` before it overwrites value `was` at `l`. */
  function UpdateRecord(t: nat, l: Loc, was: Value): (r: LogRecord)
    ensures r.IsSet() && r.tx == t && r.Where() == l && r.OldValue() == was
  {
    match was
    case IntVal(i) => SetInt(t, l.blk, l.off, i)
    case StrVal(s) => SetString(t, l.blk, l.off, s)
  }
}
