/**
 What the server does with the statements the application prints: reading a parameter under
 the type of its column, row comparison (section 8.2 of ISO/IEC 9075:1992), ORDER BY with
 nulls last, and LIMIT.
 */
module Server {
  import opened Prelude
  import opened SqlText
  import opened Values
  import opened SqlStatements
  import Utf8

  /**
   The types whose texts this model reads itself, and all others: numeric, dates and times, UUIDs,
   enumerations, JSON, arrays, collated texts. Of those it knows what the server brings along.
   */
  datatype SqlType =
    | BoolT
    | SmallIntT
    | IntT
    | BigIntT
    /** Texts, of no more than `longest` octets where a constraint says so. */
    | TextT(longest: Option<nat>)
    | ByteaT
    | LibraryT(codec: Codec)

  /**
   The values of a type, where each stands in the type's order, the value a text is read as, the
   value a number or truth value written without quotes is converted to, and the cell a value is
   decoded to.
   */
  datatype Codec = Codec(
    holds: CellValue -> bool,
    place: CellValue -> real,
    read: string -> Option<CellValue>,
    convert: string -> Option<CellValue>,
    decode: CellValue -> CellValue)

  datatype ColumnDef = ColumnDef(name: string, ty: SqlType)

  /** The cells of one stored row, in column order. */
  type Tuple = seq<CellValue>

  datatype Table = Table(schema: string, name: string, cols: seq<ColumnDef>, rows: seq<Tuple>)

  datatype ServerError = Syntax | Undefined | BadParameter | Rejected

  predicate HasType(c: CellValue, ty: SqlType) {
    c.Null? ||
    match ty
    case BoolT => c.Bool?
    case SmallIntT => c.SmallInt? && -0x8000 <= c.i < 0x8000
    case IntT => c.Int? && -0x8000_0000 <= c.i < 0x8000_0000
    case BigIntT => c.BigInt? && -0x8000_0000_0000_0000 <= c.i < 0x8000_0000_0000_0000
    case TextT(_) => c.Text? && Utf8.Valid(c.payload)
    case ByteaT => c.Bytea?
    case LibraryT(codec) => codec.holds(c)
  }

  /** A value the column may hold. */
  predicate Stores(c: CellValue, ty: SqlType) {
    HasType(c, ty) && (ty.TextT? && ty.longest.Some? && c.Text? ==> |c.payload| <= ty.longest.value)
  }

  predicate TupleTyped(t: Tuple, cols: seq<ColumnDef>) {
    |t| == |cols| && forall i :: 0 <= i < |cols| ==> Stores(t[i], cols[i].ty)
  }

  predicate Typed(tbl: Table) {
    forall i :: 0 <= i < |tbl.rows| ==> TupleTyped(tbl.rows[i], tbl.cols)
  }

  function ReadIntAs(s: string, bound: int): Option<int> {
    var i :- ReadInt(s);
    if -bound <= i < bound then Some(i) else None
  }

  function HexValue(b: Utf8.byte): Option<Utf8.byte> {
    if '0' as int <= b <= '9' as int then Some(b - '0' as int)
    else if 'a' as int <= b <= 'f' as int then Some(b - 'a' as int + 10)
    else if 'A' as int <= b <= 'F' as int then Some(b - 'A' as int + 10)
    else None
  }

  /** Pairs of hexadecimal digits, with white space between them. */
  function ReadHex(b: Utf8.bytes): Option<Utf8.bytes> {
    if b == [] then Some([])
    else if b[0] as char in {' ', '\t', '\n', '\r'} then ReadHex(b[1..])
    else if |b| < 2 then None
    else
      var high :- HexValue(b[0]);
      var low :- HexValue(b[1]);
      var rest :- ReadHex(b[2..]);
      Some([high * 16 + low] + rest)
  }

  predicate OctalDigit(b: Utf8.byte) { '0' as int <= b <= '7' as int }

  /** Octets stand for themselves; a backslash goes before another one, or before three octal digits. */
  function ReadEscaped(b: Utf8.bytes): Option<Utf8.bytes> {
    if b == [] then Some([])
    else if b[0] != '\\' as int then var rest :- ReadEscaped(b[1..]); Some([b[0]] + rest)
    else if |b| >= 2 && b[1] == '\\' as int then var rest :- ReadEscaped(b[2..]); Some([b[1]] + rest)
    else if |b| >= 4 && b[1] <= '3' as int && OctalDigit(b[1]) && OctalDigit(b[2]) && OctalDigit(b[3]) then
      var rest :- ReadEscaped(b[4..]);
      Some([(b[1] - '0' as int) * 64 + (b[2] - '0' as int) * 8 + (b[3] - '0' as int)] + rest)
    else None
  }

  /** Octets as the server reads them: hexadecimal behind `\x`, else escaped. */
  function ReadBytea(b: Utf8.bytes): Option<Utf8.bytes> {
    if |b| >= 2 && b[0] == '\\' as int && b[1] == 'x' as int then ReadHex(b[2..]) else ReadEscaped(b)
  }

  /** A textual parameter read under the type of the column it is compared with. */
  function ReadParam(ty: SqlType, s: string): Option<CellValue> {
    match ty
    case BoolT => if s == "true" then Some(Bool(true)) else if s == "false" then Some(Bool(false)) else None
    case SmallIntT => var i :- ReadIntAs(s, 0x8000); Some(SmallInt(i))
    case IntT => var i :- ReadIntAs(s, 0x8000_0000); Some(Int(i))
    case BigIntT => var i :- ReadIntAs(s, 0x8000_0000_0000_0000); Some(BigInt(i))
    case TextT(_) => Some(Text(Utf8.Encode(s)))
    case ByteaT => var b :- ReadBytea(Utf8.Encode(s)); Some(Bytea(b))
    case LibraryT(codec) => var c :- codec.read(s); if codec.holds(c) && !c.Null? then Some(c) else None
  }

  /** A parameter stands for a value of its column's type. */
  lemma ReadParamTyped(ty: SqlType, s: string)
    requires ReadParam(ty, s).Some?
    ensures HasType(ReadParam(ty, s).value, ty) && !ReadParam(ty, s).value.Null?
  {
    if ty.TextT? { Utf8.EncodeValid(s); }
  }

  predicate Basic(ty: SqlType) { !ty.ByteaT? && !ty.LibraryT? }

  /** The text shown for a cell of a basic type reads back as the cell, unless it is NULL. */
  lemma ReadBackBasic(c: CellValue, ty: SqlType)
    requires HasType(c, ty) && !c.Null? && Basic(ty)
    ensures ReadParam(ty, DisplayString(c)) == Some(c)
  {
    match c
    case SmallInt(i) => ReadIntSignedDec(i);
    case Int(i) => ReadIntSignedDec(i);
    case BigInt(i) => ReadIntSignedDec(i);
    case Text(p) => Utf8.EncodeDecode(p);
    case _ =>
  }

  /** The text shown for NULL reads as a text, and as no other basic type. */
  lemma ReadShownNull(ty: SqlType)
    requires Basic(ty)
    ensures ReadParam(ty, DisplayString(Null)).Some? <==> ty.TextT?
    ensures ty.TextT? ==> ReadParam(ty, DisplayString(Null)) == Some(Text(Utf8.Encode("NULL")))
  {
    assert DigitRun("NULL") == 0;
  }

  // ---- order of values --------------------------------------------------------------------

  predicate BytesLess(a: Utf8.bytes, b: Utf8.bytes) {
    if b == [] then false
    else if a == [] then true
    else a[0] < b[0] || (a[0] == b[0] && BytesLess(a[1..], b[1..]))
  }

  lemma {:induction false} BytesTrichotomy(a: Utf8.bytes, b: Utf8.bytes)
    ensures !(BytesLess(a, b) && BytesLess(b, a))
    ensures a == b <==> !BytesLess(a, b) && !BytesLess(b, a)
  {
    if a != [] && b != [] {
      BytesTrichotomy(a[1..], b[1..]);
      assert a == [a[0]] + a[1..] && b == [b[0]] + b[1..];
    }
  }

  lemma {:induction false} BytesTransitive(a: Utf8.bytes, b: Utf8.bytes, c: Utf8.bytes)
    requires BytesLess(a, b) && BytesLess(b, c)
    ensures BytesLess(a, c)
  {
    if a != [] && a[0] == b[0] && b[0] == c[0] {
      BytesTransitive(a[1..], b[1..], c[1..]);
    }
  }

  /** Order of two values of one type that are not NULL. */
  predicate Less(a: CellValue, b: CellValue, ty: SqlType) {
    match ty
    case BoolT => a.Bool? && b.Bool? && !a.b && b.b
    case SmallIntT => a.SmallInt? && b.SmallInt? && a.i < b.i
    case IntT => a.Int? && b.Int? && a.i < b.i
    case BigIntT => a.BigInt? && b.BigInt? && a.i < b.i
    case TextT(_) => a.Text? && b.Text? && BytesLess(a.payload, b.payload)
    case ByteaT => a.Bytea? && b.Bytea? && BytesLess(a.payload, b.payload)
    case LibraryT(codec) => codec.place(a) < codec.place(b)
  }

  /** Two values the server's `=` finds equal; a numeric type has several texts for one value. */
  predicate Equal(a: CellValue, b: CellValue, ty: SqlType) {
    if ty.LibraryT? then ty.codec.place(a) == ty.codec.place(b) else a == b
  }

  /** Order for ORDER BY: NULL after every value. */
  predicate OrderLess(a: CellValue, b: CellValue, ty: SqlType) {
    if a.Null? then false else if b.Null? then true else Less(a, b, ty)
  }

  /** Neither sorts before the other. */
  predicate Tied(a: CellValue, b: CellValue, ty: SqlType) {
    if a.Null? || b.Null? then a.Null? && b.Null? else Equal(a, b, ty)
  }

  lemma OrderTrichotomy(a: CellValue, b: CellValue, ty: SqlType)
    requires HasType(a, ty) && HasType(b, ty)
    ensures !(OrderLess(a, b, ty) && OrderLess(b, a, ty))
    ensures Tied(a, b, ty) <==> !OrderLess(a, b, ty) && !OrderLess(b, a, ty)
    ensures Tied(a, b, ty) <==> Tied(b, a, ty)
  {
    hide BytesLess, Utf8.Valid;
    if (ty.TextT? || ty.ByteaT?) && !a.Null? && !b.Null? {
      BytesTrichotomy(a.payload, b.payload);
    }
  }

  lemma OrderTransitive(a: CellValue, b: CellValue, c: CellValue, ty: SqlType)
    requires OrderLess(a, b, ty) && OrderLess(b, c, ty)
    ensures OrderLess(a, c, ty)
  {
    hide BytesLess;
    if (ty.TextT? || ty.ByteaT?) && !c.Null? {
      BytesTransitive(a.payload, b.payload, c.payload);
    }
  }

  lemma PlacesAlike(a: CellValue, b: CellValue, c: CellValue, ty: SqlType)
    requires ty.LibraryT?
    ensures Less(a, c, ty) == (ty.codec.place(a) < ty.codec.place(c))
    ensures Less(b, c, ty) == (ty.codec.place(b) < ty.codec.place(c))
    ensures Less(c, a, ty) == (ty.codec.place(c) < ty.codec.place(a))
    ensures Less(c, b, ty) == (ty.codec.place(c) < ty.codec.place(b))
  {
  }

  /** Ties are ties with everything else. */
  lemma TiedAlike(a: CellValue, b: CellValue, c: CellValue, ty: SqlType)
    requires Tied(a, b, ty)
    ensures Tied(b, a, ty)
    ensures OrderLess(a, c, ty) <==> OrderLess(b, c, ty)
    ensures OrderLess(c, a, ty) <==> OrderLess(c, b, ty)
    ensures Tied(a, c, ty) <==> Tied(b, c, ty)
  {
    hide Less;
    if ty.LibraryT? {
      PlacesAlike(a, b, c, ty);
    } else {
      assert a == b;
    }
  }

  // ---- what the client makes of a cell -----------------------------------------------------

  /**
   The cell a stored one is decoded to: a text is cut at the cap; numbers, booleans and octets come
   as they are; of the other types a library decides.
   */
  function Decoded(c: CellValue, ty: SqlType): CellValue {
    if c.Null? then Null
    else if ty.TextT? && c.Text? then Text(Utf8.Cut(c.payload, CELL_CAP))
    else if ty.LibraryT? then ty.codec.decode(c)
    else c
  }

  function ShownText(c: CellValue, ty: SqlType): string {
    DisplayString(Decoded(c, ty))
  }

  /** A stored row as the client has it. */
  function DecodedRow(t: Tuple, cols: seq<ColumnDef>): (r: Tuple)
    ensures |r| == |t|
    ensures forall i :: 0 <= i < |t| && i < |cols| ==> r[i] == Decoded(t[i], cols[i].ty)
  {
    seq(|t|, i requires 0 <= i < |t| => if i < |cols| then Decoded(t[i], cols[i].ty) else t[i])
  }

  /** The text shown for a cell is read as a value equal to it; that of NULL, as any value. */
  predicate ReadsBack(c: CellValue, ty: SqlType) {
    var r := ReadParam(ty, ShownText(c, ty));
    r.Some? && (c.Null? || Equal(r.value, c, ty))
  }

  /** Every value a column can hold survives being shown and read. */
  ghost predicate Faithful(ty: SqlType) {
    forall c: CellValue :: Stores(c, ty) && !c.Null? ==> ReadsBack(c, ty)
  }

  /** No text in the column is longer than the decoder's cap. */
  predicate Short(ty: SqlType) {
    ty.TextT? ==> ty.longest.Some? && ty.longest.value <= CELL_CAP
  }

  lemma ReadDecoded(c: CellValue, ty: SqlType)
    requires HasType(c, ty) && !c.Null? && Basic(ty)
    ensures ReadParam(ty, ShownText(c, ty)) == Some(Decoded(c, ty))
  {
    if ty.TextT? { Utf8.CutValid(c.payload, CELL_CAP); }
    ReadBackBasic(Decoded(c, ty), ty);
  }

  /** What is shown reads back exactly when it has not been cut. */
  lemma ReadsBackIffShort(c: CellValue, ty: SqlType)
    requires HasType(c, ty) && !c.Null? && Basic(ty)
    ensures ReadsBack(c, ty) <==> (c.Text? ==> |c.payload| <= CELL_CAP)
  {
    ReadDecoded(c, ty);
    hide ReadParam, DisplayString;
  }

  lemma BasicIsFaithful(ty: SqlType)
    requires Basic(ty) && Short(ty)
    ensures Faithful(ty)
  {
    hide ReadParam, DisplayString, ReadsBack;
    forall c: CellValue | Stores(c, ty) && !c.Null? ensures ReadsBack(c, ty) {
      ReadsBackIffShort(c, ty);
    }
  }

  /** A text as long as `n`. */
  function LongText(n: nat): (c: CellValue)
    ensures c.Text? && |c.payload| == n && forall i :: 0 <= i < n ==> c.payload[i] == 97
  {
    Text(seq(n, i => 97))
  }

  lemma {:induction false} PlainValid(p: Utf8.bytes)
    requires forall i :: 0 <= i < |p| ==> p[i] == 97
    ensures Utf8.Valid(p)
  {
    if p != [] { PlainValid(p[1..]); }
  }

  /** A text that begins another, longer one sorts before it. */
  lemma {:induction false} PrefixLess(a: Utf8.bytes, b: Utf8.bytes)
    requires a <= b && |a| < |b|
    ensures BytesLess(a, b)
  {
    if a != [] { PrefixLess(a[1..], b[1..]); }
  }

  /** A text that is cut is read as a smaller one. */
  lemma CutReadsLower(p: Utf8.bytes, longest: Option<nat>)
    requires Utf8.Valid(p) && |p| > CELL_CAP
    ensures
      var r := ReadParam(TextT(longest), ShownText(Text(p), TextT(longest)));
      r.Some? && Less(r.value, Text(p), TextT(longest)) && !ReadsBack(Text(p), TextT(longest))
  {
    ReadDecoded(Text(p), TextT(longest));
    PrefixLess(Utf8.Cut(p, CELL_CAP), p);
    ReadsBackIffShort(Text(p), TextT(longest));
    hide ReadParam, DisplayString;
  }

  // ---- rows in order ----------------------------------------------------------------------

  predicate Within(idxs: seq<nat>, n: nat) {
    forall k :: 0 <= k < |idxs| ==> idxs[k] < n
  }

  /** `s` sorts strictly before `t` on the columns `idxs`. */
  predicate KeyLess(s: Tuple, t: Tuple, cols: seq<ColumnDef>, idxs: seq<nat>)
    requires |s| == |t| == |cols| && Within(idxs, |cols|)
  {
    idxs != [] &&
    var c := idxs[0];
    OrderLess(s[c], t[c], cols[c].ty) || (Tied(s[c], t[c], cols[c].ty) && KeyLess(s, t, cols, idxs[1..]))
  }

  predicate TiedOn(s: Tuple, t: Tuple, cols: seq<ColumnDef>, idxs: seq<nat>)
    requires |s| == |t| == |cols| && Within(idxs, |cols|)
  {
    forall k :: 0 <= k < |idxs| ==> Tied(s[idxs[k]], t[idxs[k]], cols[idxs[k]].ty)
  }

  lemma {:induction false} KeyAsymmetric(s: Tuple, t: Tuple, cols: seq<ColumnDef>, idxs: seq<nat>)
    requires TupleTyped(s, cols) && TupleTyped(t, cols) && Within(idxs, |cols|)
    ensures !(KeyLess(s, t, cols, idxs) && KeyLess(t, s, cols, idxs))
    ensures !KeyLess(s, t, cols, idxs) && !KeyLess(t, s, cols, idxs) <==> TiedOn(s, t, cols, idxs)
  {
    hide OrderLess, Tied, HasType;
    if idxs != [] {
      var c := idxs[0];
      OrderTrichotomy(s[c], t[c], cols[c].ty);
      KeyAsymmetric(s, t, cols, idxs[1..]);
      assert TiedOn(s, t, cols, idxs) <==> Tied(s[c], t[c], cols[c].ty) && TiedOn(s, t, cols, idxs[1..]) by {
        assert idxs == [c] + idxs[1..];
      }
    }
  }

  /** Not sorting before is transitive: the order is total on typed rows. */
  lemma {:induction false} KeyNotLessTransitive(s: Tuple, t: Tuple, u: Tuple, cols: seq<ColumnDef>, idxs: seq<nat>)
    requires TupleTyped(s, cols) && TupleTyped(t, cols) && TupleTyped(u, cols) && Within(idxs, |cols|)
    requires !KeyLess(t, s, cols, idxs) && !KeyLess(u, t, cols, idxs)
    ensures !KeyLess(u, s, cols, idxs)
  {
    hide OrderLess, Tied, HasType;
    if idxs != [] {
      var c, ty := idxs[0], cols[idxs[0]].ty;
      OrderTrichotomy(s[c], t[c], ty);
      OrderTrichotomy(t[c], u[c], ty);
      OrderTrichotomy(s[c], u[c], ty);
      if OrderLess(s[c], t[c], ty) && OrderLess(t[c], u[c], ty) {
        OrderTransitive(s[c], t[c], u[c], ty);
      } else if Tied(s[c], t[c], ty) {
        TiedAlike(s[c], t[c], u[c], ty);
        if Tied(t[c], u[c], ty) {
          KeyNotLessTransitive(s, t, u, cols, idxs[1..]);
        }
      } else if Tied(t[c], u[c], ty) {
        TiedAlike(t[c], u[c], s[c], ty);
      }
    }
  }

  // ---- ORDER BY ---------------------------------------------------------------------------

  predicate AllTyped(rows: seq<Tuple>, cols: seq<ColumnDef>) {
    forall i :: 0 <= i < |rows| ==> TupleTyped(rows[i], cols)
  }

  /** Every row has `w` cells. */
  predicate Wide(rows: seq<Tuple>, w: nat) {
    forall i :: 0 <= i < |rows| ==> |rows[i]| == w
  }

  function Insert(r: Tuple, rows: seq<Tuple>, cols: seq<ColumnDef>, idxs: seq<nat>): (s: seq<Tuple>)
    requires |r| == |cols| && Wide(rows, |cols|) && Within(idxs, |cols|)
    ensures Wide(s, |cols|)
  {
    if rows == [] then [r]
    else if !KeyLess(rows[0], r, cols, idxs) then [r] + rows
    else [rows[0]] + Insert(r, rows[1..], cols, idxs)
  }

  /** The rows in key order; rows with equal keys stay in stored order. */
  function OrderBy(rows: seq<Tuple>, cols: seq<ColumnDef>, idxs: seq<nat>): (s: seq<Tuple>)
    requires Wide(rows, |cols|) && Within(idxs, |cols|)
    ensures Wide(s, |cols|)
  {
    if rows == [] then [] else Insert(rows[0], OrderBy(rows[1..], cols, idxs), cols, idxs)
  }

  lemma {:induction false} InsertPermutes(r: Tuple, rows: seq<Tuple>, cols: seq<ColumnDef>, idxs: seq<nat>)
    requires |r| == |cols| && Wide(rows, |cols|) && Within(idxs, |cols|)
    ensures multiset(Insert(r, rows, cols, idxs)) == multiset(rows) + multiset{r}
  {
    if rows != [] && KeyLess(rows[0], r, cols, idxs) {
      InsertPermutes(r, rows[1..], cols, idxs);
      assert rows == [rows[0]] + rows[1..];
    }
  }

  /** ORDER BY neither drops nor repeats a row. */
  lemma {:induction false} OrderByPermutes(rows: seq<Tuple>, cols: seq<ColumnDef>, idxs: seq<nat>)
    requires Wide(rows, |cols|) && Within(idxs, |cols|)
    ensures multiset(OrderBy(rows, cols, idxs)) == multiset(rows)
  {
    if rows != [] {
      OrderByPermutes(rows[1..], cols, idxs);
      InsertPermutes(rows[0], OrderBy(rows[1..], cols, idxs), cols, idxs);
      assert rows == [rows[0]] + rows[1..];
    }
  }

  ghost predicate Ordered(rows: seq<Tuple>, cols: seq<ColumnDef>, idxs: seq<nat>)
    requires Wide(rows, |cols|) && Within(idxs, |cols|)
  {
    forall i, j :: 0 <= i < j < |rows| ==> !KeyLess(rows[j], rows[i], cols, idxs)
  }

  lemma TypedPermutation(rows: seq<Tuple>, s: seq<Tuple>, cols: seq<ColumnDef>)
    requires AllTyped(rows, cols) && multiset(s) == multiset(rows)
    ensures AllTyped(s, cols)
  {
    forall i | 0 <= i < |s| ensures TupleTyped(s[i], cols) {
      assert s[i] in multiset(s);
      var k :| 0 <= k < |rows| && rows[k] == s[i];
    }
  }

  lemma {:induction false} InsertOrdered(r: Tuple, rows: seq<Tuple>, cols: seq<ColumnDef>, idxs: seq<nat>)
    requires TupleTyped(r, cols) && AllTyped(rows, cols) && Within(idxs, |cols|)
    requires Ordered(rows, cols, idxs)
    ensures Ordered(Insert(r, rows, cols, idxs), cols, idxs)
  {
    hide KeyLess, HasType;
    if rows != [] {
      var x, rest := rows[0], rows[1..];
      if !KeyLess(x, r, cols, idxs) {
        forall j | 0 <= j < |rows| ensures !KeyLess(rows[j], r, cols, idxs) {
          if j > 0 { KeyNotLessTransitive(r, x, rows[j], cols, idxs); }
        }
      } else {
        InsertOrdered(r, rest, cols, idxs);
        var s := Insert(r, rest, cols, idxs);
        KeyAsymmetric(x, r, cols, idxs);
        InsertPermutes(r, rest, cols, idxs);
        forall j | 0 <= j < |s| ensures !KeyLess(s[j], x, cols, idxs) {
          assert s[j] in multiset(s);
          if s[j] != r {
            assert s[j] in rest;
            var k :| 0 <= k < |rest| && rest[k] == s[j];
            assert rest[k] == rows[k + 1];
          }
        }
      }
    }
  }

  lemma {:induction false} OrderByOrdered(rows: seq<Tuple>, cols: seq<ColumnDef>, idxs: seq<nat>)
    requires AllTyped(rows, cols) && Within(idxs, |cols|)
    ensures AllTyped(OrderBy(rows, cols, idxs), cols)
    ensures Ordered(OrderBy(rows, cols, idxs), cols, idxs)
  {
    OrderByPermutes(rows, cols, idxs);
    if rows != [] {
      OrderByOrdered(rows[1..], cols, idxs);
      InsertOrdered(rows[0], OrderBy(rows[1..], cols, idxs), cols, idxs);
    }
    TypedPermutation(rows, OrderBy(rows, cols, idxs), cols);
  }

  // ---- SELECT -----------------------------------------------------------------------------

  function IndexOfName(cols: seq<ColumnDef>, name: string): (r: Option<nat>)
    ensures r.Some? ==> r.value < |cols| && cols[r.value].name == name
    ensures r.None? ==> forall i :: 0 <= i < |cols| ==> cols[i].name != name
  {
    if cols == [] then None
    else if cols[0].name == name then Some(0)
    else var i :- IndexOfName(cols[1..], name); Some(i + 1)
  }

  function Indexes(cols: seq<ColumnDef>, names: seq<string>): (r: Option<seq<nat>>)
    ensures r.Some? ==> |r.value| == |names| && Within(r.value, |cols|)
    ensures r.Some? ==> forall k :: 0 <= k < |names| ==> IndexOfName(cols, names[k]) == Some(r.value[k])
  {
    if names == [] then Some([])
    else
      var i :- IndexOfName(cols, names[0]);
      var more :- Indexes(cols, names[1..]);
      Some([i] + more)
  }

  /** Names that stand at `idxs` among distinct column names resolve to `idxs`. */
  lemma {:induction false} IndexesFound(cols: seq<ColumnDef>, names: seq<string>, idxs: seq<nat>)
    requires |names| == |idxs| && Within(idxs, |cols|)
    requires forall i, j :: 0 <= i < j < |cols| ==> cols[i].name != cols[j].name
    requires forall k :: 0 <= k < |names| ==> names[k] == cols[idxs[k]].name
    ensures Indexes(cols, names) == Some(idxs)
  {
    if names != [] {
      IndexesFound(cols, names[1..], idxs[1..]);
      assert IndexOfName(cols, names[0]) == Some(idxs[0]);
      assert idxs == [idxs[0]] + idxs[1..];
    }
  }

  function ParamText(params: seq<string>, k: nat): Option<string> {
    if 1 <= k <= |params| then Some(params[k - 1]) else None
  }

  /** The value the `k`-th placeholder stands for, read under the type of its column. */
  function ReadPlace(
    cols: seq<ColumnDef>, idxs: seq<nat>, places: seq<nat>, params: seq<string>, k: nat
  ): Option<CellValue>
    requires k < |idxs| == |places| && Within(idxs, |cols|)
  {
    var s :- ParamText(params, places[k]);
    ReadParam(cols[idxs[k]].ty, s)
  }

  function ReadAll(
    cols: seq<ColumnDef>, idxs: seq<nat>, places: seq<nat>, params: seq<string>
  ): (r: Option<seq<CellValue>>)
    requires |idxs| == |places| && Within(idxs, |cols|)
    ensures r.Some? ==> |r.value| == |idxs|
    ensures r.Some? ==> forall k :: 0 <= k < |idxs| ==> ReadPlace(cols, idxs, places, params, k) == Some(r.value[k])
    ensures r.None? ==> exists k :: 0 <= k < |idxs| && ReadPlace(cols, idxs, places, params, k).None?
  {
    if idxs == [] then Some([])
    else
      var v := ReadPlace(cols, idxs, places, params, 0);
      var rest := ReadAll(cols, idxs[1..], places[1..], params);
      assert forall k :: 0 <= k < |idxs| - 1 ==>
        ReadPlace(cols, idxs[1..], places[1..], params, k) == ReadPlace(cols, idxs, places, params, k + 1);
      if v.None? || rest.None? then None else Some([v.value] + rest.value)
  }

  /** The row comparison `(columns) > (values)` is true: NULL makes it unknown. */
  predicate RowGreater(t: Tuple, cols: seq<ColumnDef>, idxs: seq<nat>, vals: seq<CellValue>)
    requires |t| == |cols| && Within(idxs, |cols|) && |idxs| == |vals|
  {
    if idxs == [] then false
    else
      var x, v, ty := t[idxs[0]], vals[0], cols[idxs[0]].ty;
      if x.Null? || v.Null? then false
      else if Equal(x, v, ty) then RowGreater(t, cols, idxs[1..], vals[1..])
      else Less(v, x, ty)
  }

  function KeepGreater(rows: seq<Tuple>, cols: seq<ColumnDef>, idxs: seq<nat>, vals: seq<CellValue>): (s: seq<Tuple>)
    requires Wide(rows, |cols|) && Within(idxs, |cols|) && |idxs| == |vals|
    ensures Wide(s, |cols|)
  {
    if rows == [] then []
    else (if RowGreater(rows[0], cols, idxs, vals) then [rows[0]] else []) + KeepGreater(rows[1..], cols, idxs, vals)
  }

  function Take<T>(xs: seq<T>, n: nat): seq<T> {
    if n < |xs| then xs[..n] else xs
  }

  function Project(t: Tuple, idxs: seq<nat>): (r: Tuple)
    requires Within(idxs, |t|)
    ensures |r| == |idxs| && forall k :: 0 <= k < |idxs| ==> r[k] == t[idxs[k]]
  {
    seq(|idxs|, k requires 0 <= k < |idxs| => t[idxs[k]])
  }

  function ProjectAll(rows: seq<Tuple>, w: nat, idxs: seq<nat>): (s: seq<Tuple>)
    requires Wide(rows, w) && Within(idxs, w)
    ensures |s| == |rows| && forall i :: 0 <= i < |rows| ==> s[i] == Project(rows[i], idxs)
  {
    seq(|rows|, i requires 0 <= i < |rows| => Project(rows[i], idxs))
  }

  function AllIndexes(n: nat): (r: seq<nat>)
    ensures |r| == n && forall k :: 0 <= k < n ==> r[k] == k
  {
    seq(n, k => k)
  }

  predicate NamesTable(from: seq<string>, tbl: Table) {
    from == [tbl.name] || from == [tbl.schema, tbl.name]
  }

  /** WHERE, then ORDER BY, then LIMIT, then the SELECT list. */
  function RunSelect(q: SelectStmt, params: seq<string>, tbl: Table): Result<seq<Tuple>, ServerError>
    requires Typed(tbl)
  {
    if !NamesTable(q.from, tbl) then Err(Undefined)
    else
      var shown := if q.columns.None? then Some(AllIndexes(|tbl.cols|)) else Indexes(tbl.cols, q.columns.value);
      var order := Indexes(tbl.cols, q.orderBy);
      var limit := ParamText(params, q.limit);
      if shown.None? || order.None? || limit.None? then Err(Undefined)
      else
        var n := ReadInt(limit.value);
        if n.None? || n.value < 0 then Err(BadParameter)
        else
          var kept :- Where(q.after, params, tbl);
          var sorted := OrderBy(kept, tbl.cols, order.value);
          Ok(ProjectAll(Take(sorted, n.value), |tbl.cols|, shown.value))
  }

  function Where(after: Option<RowComparison>, params: seq<string>, tbl: Table): (r: Result<seq<Tuple>, ServerError>)
    requires Typed(tbl)
    ensures r.Ok? ==> Wide(r.value, |tbl.cols|)
  {
    if after.None? then Ok(tbl.rows)
    else
      var idxs := Indexes(tbl.cols, after.value.columns);
      if idxs.None? || |after.value.places| != |idxs.value| then Err(Undefined)
      else
        var vals := ReadAll(tbl.cols, idxs.value, after.value.places, params);
        if vals.None? then Err(BadParameter) else Ok(KeepGreater(tbl.rows, tbl.cols, idxs.value, vals.value))
  }

  /** A SELECT as text, run on the table it names. */
  function Query(sql: string, params: seq<string>, tbl: Table): Result<seq<Tuple>, ServerError>
    requires Typed(tbl)
  {
    var q := ReadSelect(sql);
    if q.None? then Err(Syntax) else RunSelect(q.value, params, tbl)
  }
}
