/** Result cells and rows, and how much of the store's byte budget a row takes. */
module Values {
  import opened Prelude
  import opened SqlText
  import Utf8

  /**
   A cell of a query result. Values whose text a library renders (floating point, numeric,
   dates and times, UUIDs) are kept as that text.
   */
  datatype CellValue =
    | Null
    | Bool(b: bool)
    | SmallInt(i: int)
    | Int(i: int)
    | BigInt(i: int)
    | Float(shown: string)
    | Double(shown: string)
    | Numeric(shown: string)
    | Text(payload: Utf8.bytes)
    | Bytea(payload: Utf8.bytes)
    | Date(shown: string)
    | Time(shown: string)
    | Timestamp(shown: string)
    | TimestampTz(shown: string)
    | Uuid(shown: string)
    | Json(payload: Utf8.bytes)
    | Jsonb(payload: Utf8.bytes)
    | Array(payload: Utf8.bytes)
    | Enum(payload: Utf8.bytes)
    | Other(payload: Utf8.bytes)

  function HexDigit(d: nat): char
    requires d < 16
  {
    "0123456789abcdef"[d]
  }

  function HexEncode(b: Utf8.bytes): string {
    if b == [] then "" else [HexDigit(b[0] / 16), HexDigit(b[0] % 16)] + HexEncode(b[1..])
  }

  /** The text shown, exported, and used as a page cursor. */
  function DisplayString(c: CellValue): string {
    match c
    case Null => "NULL"
    case Bool(b) => if b then "true" else "false"
    case SmallInt(i) => SignedDec(i)
    case Int(i) => SignedDec(i)
    case BigInt(i) => SignedDec(i)
    case Float(t) => t
    case Double(t) => t
    case Numeric(t) => t
    case Date(t) => t
    case Time(t) => t
    case Timestamp(t) => t
    case TimestampTz(t) => t
    case Uuid(t) => t
    case Bytea(p) => HexEncode(p)
    case Text(p) => Utf8.Decode(p)
    case Json(p) => Utf8.Decode(p)
    case Jsonb(p) => Utf8.Decode(p)
    case Array(p) => Utf8.Decode(p)
    case Enum(p) => Utf8.Decode(p)
    case Other(p) => Utf8.Decode(p)
  }

  /** A row with its place in the whole result, once the store has given it one. */
  datatype Row = Row(index: Option<nat>, cells: seq<CellValue>)

  function CellBytes(c: CellValue): nat {
    match c
    case Null => 0
    case Text(p) => |p|
    case Json(p) => |p|
    case Jsonb(p) => |p|
    case Bytea(p) => |p|
    case Array(p) => |p|
    case Enum(p) => |p|
    case Other(p) => |p|
    case _ => 8
  }

  function CellsBytes(cells: seq<CellValue>): nat {
    if cells == [] then 0 else CellBytes(cells[0]) + CellsBytes(cells[1..])
  }

  /** A text longer than this is cut when it is decoded. */
  const CELL_CAP: nat := 0x1_0000

  const ROW_OVERHEAD: nat := 32

  function RowBytes(r: Row): nat {
    CellsBytes(r.cells) + ROW_OVERHEAD
  }

  /** The octets a cell brings along; numbers, dates and the like have none. */
  function Payload(c: CellValue): Option<Utf8.bytes> {
    if c.Text? || c.Bytea? || c.Json? || c.Jsonb? || c.Array? || c.Enum? || c.Other? then Some(c.payload) else None
  }

  /** How many octets the cells bring along. */
  function Octets(cells: seq<CellValue>): nat {
    if cells == [] then 0
    else (if Payload(cells[0]).Some? then |Payload(cells[0]).value| else 0) + Octets(cells[1..])
  }

  /** How many cells are values without octets. */
  function Scalars(cells: seq<CellValue>): nat {
    if cells == [] then 0
    else (if Payload(cells[0]).None? && cells[0] != Null then 1 else 0) + Scalars(cells[1..])
  }

  /** A row counts as its octets, eight for every other value, and 32 for itself. */
  lemma {:induction false} RowBytesAre(r: Row)
    ensures RowBytes(r) == Octets(r.cells) + 8 * Scalars(r.cells) + 32
    decreases |r.cells|
  {
    if r.cells != [] {
      RowBytesAre(Row(None, r.cells[1..]));
    }
  }
}
