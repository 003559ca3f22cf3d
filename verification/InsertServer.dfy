/**
 What the server does with an exported INSERT: it reads each literal under the type of its column,
 and adds the rows. Run on an empty table, the export of a whole table restores it, or does not.
 */
module InsertServer {
  import opened Prelude
  import opened SqlText
  import opened Values
  import opened Relations
  import opened Server
  import opened KeysetPaging
  import UpdateServer
  import opened InsertExport
  import Utf8

  // ---- the server -------------------------------------------------------------------------

  /**
   A literal read under the type of its column. Quoted, it is read as a parameter would be. A number
   in a column of texts or a fraction in one of integers, which no table is exported with, is refused.
   */
  function ReadLiteral(ty: SqlType, l: Literal): Option<CellValue> {
    match l
    case NullLit => Some(Null)
    case TextLit(s) => ReadParam(ty, s)
    case BoolLit(b) => if ty.BoolT? then Some(Bool(b)) else Converted(ty, if b then "true" else "false")
    case NumLit(s) => if ty.SmallIntT? || ty.IntT? || ty.BigIntT? then ReadParam(ty, s) else Converted(ty, s)
  }

  function Converted(ty: SqlType, s: string): Option<CellValue> {
    if !ty.LibraryT? then None
    else var c :- ty.codec.convert(s); if ty.codec.holds(c) && !c.Null? then Some(c) else None
  }

  predicate Readable(cols: seq<ColumnDef>, idxs: seq<nat>, ls: seq<Literal>)
    requires Within(idxs, |cols|) && |ls| == |idxs|
  {
    forall k :: 0 <= k < |ls| ==> ReadLiteral(cols[idxs[k]].ty, ls[k]).Some?
  }

  function CellsOf(cols: seq<ColumnDef>, idxs: seq<nat>, ls: seq<Literal>): (r: seq<CellValue>)
    requires Within(idxs, |cols|) && |ls| == |idxs| && Readable(cols, idxs, ls)
    ensures |r| == |ls| && forall k :: 0 <= k < |ls| ==> ReadLiteral(cols[idxs[k]].ty, ls[k]) == Some(r[k])
  {
    seq(|ls|, k requires 0 <= k < |ls| => ReadLiteral(cols[idxs[k]].ty, ls[k]).value)
  }

  /** The row added for a list of literals; a column that is not named is NULL. */
  function NewRow(cols: seq<ColumnDef>, idxs: seq<nat>, ls: seq<Literal>): (r: Tuple)
    requires Within(idxs, |cols|) && |ls| == |idxs| && Readable(cols, idxs, ls)
    ensures |r| == |cols|
  {
    UpdateServer.SetCells(seq(|cols|, i => Null), idxs, CellsOf(cols, idxs, ls))
  }

  /** Every row has a literal for every column named. */
  predicate Even(rows: seq<seq<Literal>>, width: nat) {
    forall i :: 0 <= i < |rows| ==> |rows[i]| == width
  }

  predicate AllReadable(cols: seq<ColumnDef>, idxs: seq<nat>, rows: seq<seq<Literal>>)
    requires Within(idxs, |cols|) && Even(rows, |idxs|)
  {
    forall i :: 0 <= i < |rows| ==> Readable(cols, idxs, rows[i])
  }

  function NewRows(cols: seq<ColumnDef>, idxs: seq<nat>, rows: seq<seq<Literal>>): (r: seq<Tuple>)
    requires Within(idxs, |cols|) && Even(rows, |idxs|) && AllReadable(cols, idxs, rows)
    ensures |r| == |rows| && Wide(r, |cols|)
    ensures forall i :: 0 <= i < |rows| ==> r[i] == NewRow(cols, idxs, rows[i])
  {
    seq(|rows|, i requires 0 <= i < |rows| => NewRow(cols, idxs, rows[i]))
  }

  /** The server computes the column itself, and takes no value for it. */
  predicate Computed(c: Column) { c.source.Generated? || c.source.Virtual? }

  predicate NamesComputed(rel: Relation, idxs: seq<nat>)
    requires Within(idxs, |rel.columns|)
  {
    exists k :: 0 <= k < |idxs| && Computed(rel.columns[idxs[k]])
  }

  /** An INSERT run on the table the relation describes. */
  ghost function RunInsert(rel: Relation, q: InsertStmt, tbl: Table): Result<Table, ServerError>
    requires KeysetPaging.WellFormed(rel) && Typed(tbl) && |tbl.cols| == |rel.columns|
  {
    var idxs := Indexes(tbl.cols, q.columns);
    if q.table != tbl.name || idxs.None? || !Distinct(idxs.value) then Err(Undefined)
    else if !Even(q.rows, |idxs.value|) then Err(Syntax)
    else if NamesComputed(rel, idxs.value) then Err(Rejected)
    else if !AllReadable(tbl.cols, idxs.value, q.rows) then Err(BadParameter)
    else
      var rows := tbl.rows + NewRows(tbl.cols, idxs.value, q.rows);
      if AllTyped(rows, tbl.cols) && RowsLegal(rel, tbl.cols, rows) then Ok(tbl.(rows := rows)) else Err(Rejected)
  }

  /** An INSERT as text. */
  ghost function Execute(rel: Relation, sql: string, tbl: Table): Result<Table, ServerError>
    requires KeysetPaging.WellFormed(rel) && Typed(tbl) && |tbl.cols| == |rel.columns|
  {
    var q := ReadInsert(sql, STRICT);
    if q.None? then Err(Syntax) else RunInsert(rel, q.value, tbl)
  }

  // ---- a table exported -------------------------------------------------------------------

  function NamesOf(cols: seq<ColumnDef>): (names: seq<string>)
    ensures |names| == |cols| && forall i :: 0 <= i < |cols| ==> names[i] == cols[i].name
  {
    seq(|cols|, i requires 0 <= i < |cols| => cols[i].name)
  }

  /** The rows as the client has them. */
  function ResultOf(tbl: Table): (rows: seq<Row>)
    ensures |rows| == |tbl.rows|
    ensures forall i :: 0 <= i < |rows| ==> rows[i].cells == DecodedRow(tbl.rows[i], tbl.cols)
  {
    seq(|tbl.rows|, i requires 0 <= i < |tbl.rows| => Row(None, DecodedRow(tbl.rows[i], tbl.cols)))
  }

  function Exported(tbl: Table): string {
    ExportText(tbl.name, NamesOf(tbl.cols), ResultOf(tbl))
  }

  function Emptied(tbl: Table): Table { tbl.(rows := []) }

  /** A stored cell is the one that its exported literal is read as. */
  ghost predicate Survives(c: CellValue, ty: SqlType) {
    var shown := Decoded(c, ty);
    Exportable(shown, STRICT) && ReadLiteral(ty, LiteralOf(shown)) == Some(c)
  }

  ghost predicate AllSurvive(tbl: Table)
    requires Typed(tbl)
  {
    forall i, k :: 0 <= i < |tbl.rows| && 0 <= k < |tbl.cols| ==> Survives(tbl.rows[i][k], tbl.cols[k].ty)
  }

  /** The server takes values for all columns, and there are some. */
  predicate Settable(rel: Relation) {
    rel.columns != [] && forall k :: 0 <= k < |rel.columns| ==> !Computed(rel.columns[k])
  }

  /** A row's literals are read as the row exactly when every cell survives. */
  lemma RowRestored(t: Tuple, cols: seq<ColumnDef>, idxs: seq<nat>)
    requires |t| == |cols| == |idxs| && forall k :: 0 <= k < |idxs| ==> idxs[k] == k
    requires forall k :: 0 <= k < |cols| ==> Exportable(Decoded(t[k], cols[k].ty), STRICT)
    ensures
      var ls := LiteralsOf(DecodedRow(t, cols));
      Readable(cols, idxs, ls) && NewRow(cols, idxs, ls) == t <==>
        forall k :: 0 <= k < |cols| ==> Survives(t[k], cols[k].ty)
  {
    hide Exportable, ReadLiteral, LiteralOf, Decoded;
    var ls := LiteralsOf(DecodedRow(t, cols));
    if Readable(cols, idxs, ls) {
      var row := NewRow(cols, idxs, ls);
      assert forall k :: 0 <= k < |cols| ==> row[idxs[k]] == CellsOf(cols, idxs, ls)[k];
    }
  }

  lemma RowIsExportable(t: Tuple, cols: seq<ColumnDef>, r: Row)
    requires |t| == |cols| > 0 && r.cells == DecodedRow(t, cols)
    ensures RowExportable(r, STRICT) <==> forall k :: 0 <= k < |cols| ==> Exportable(Decoded(t[k], cols[k].ty), STRICT)
  {
    hide Exportable, Decoded;
  }

  /** The positions of all columns. */
  function Places(n: nat): (idxs: seq<nat>)
    ensures |idxs| == n && Distinct(idxs) && forall k :: 0 <= k < n ==> idxs[k] == k
  {
    seq(n, i => i)
  }

  lemma NamesFound(rel: Relation, schemaName: Option<string>, tys: seq<SqlType>, tbl: Table)
    requires KeysetPaging.WellFormed(rel) && |tys| == |rel.columns| && TableOf(rel, schemaName, tys, tbl)
    ensures Indexes(tbl.cols, NamesOf(tbl.cols)) == Some(Places(|tbl.cols|))
    ensures rel.columns != [] ==> (Settable(rel) <==> !NamesComputed(rel, Places(|rel.columns|)))
  {
    hide RowsLegal, TupleTyped, Places, Computed;
    IndexesFound(tbl.cols, NamesOf(tbl.cols), Places(|tbl.cols|));
    if k :| 0 <= k < |rel.columns| && Computed(rel.columns[k]) {
      assert Places(|rel.columns|)[k] == k;
    }
  }

  lemma TypedIsWide(tbl: Table)
    requires Typed(tbl)
    ensures Wide(tbl.rows, |tbl.cols|)
  {
  }

  /** The server reads what was exported, and every row is the stored one. */
  lemma ReadBack(rel: Relation, schemaName: Option<string>, tys: seq<SqlType>, tbl: Table)
    requires KeysetPaging.WellFormed(rel) && |tys| == |rel.columns| && TableOf(rel, schemaName, tys, tbl)
    requires tbl.rows != [] && Settable(rel)
    requires ReadInsert(Exported(tbl), STRICT) ==
      Some(InsertExport.Insert(tbl.name, NamesOf(tbl.cols), AllLiteralsOf(ResultOf(tbl))))
    requires AllExportable(NamesOf(tbl.cols), ResultOf(tbl), STRICT)
    ensures Execute(rel, Exported(tbl), Emptied(tbl)) == Ok(tbl) <==> AllSurvive(tbl)
  {
    hide ReadInsert, Exported, Survives, RowExportable, LiteralsOf, DecodedRow, RowsLegal, NamesComputed;
    hide NewRow, Readable, TupleTyped;
    TypedIsWide(tbl);
    var cols, rows := tbl.cols, AllLiteralsOf(ResultOf(tbl));
    var idxs := Places(|cols|);
    NamesFound(rel, schemaName, tys, tbl);
    assert Even(rows, |idxs|);
    forall i | 0 <= i < |rows|
      ensures Readable(cols, idxs, rows[i]) && NewRow(cols, idxs, rows[i]) == tbl.rows[i] <==>
        forall k :: 0 <= k < |cols| ==> Survives(tbl.rows[i][k], cols[k].ty)
    {
      assert RowExportable(ResultOf(tbl)[i], STRICT);
      assert TupleTyped(tbl.rows[i], cols);
      RowIsExportable(tbl.rows[i], cols, ResultOf(tbl)[i]);
      RowRestored(tbl.rows[i], cols, idxs);
    }
    if AllReadable(cols, idxs, rows) {
      var made := NewRows(cols, idxs, rows);
      assert [] + made == made;
      if AllSurvive(tbl) { assert made == tbl.rows; }
    }
  }

  /**
   An exported table, run on the empty table, is restored exactly when the server computes no column
   and every cell survives: of all tables whose floats are shown as numbers, NaN or infinite.
   */
  lemma RestoredIff(rel: Relation, schemaName: Option<string>, tys: seq<SqlType>, tbl: Table)
    requires KeysetPaging.WellFormed(rel) && |tys| == |rel.columns| && TableOf(rel, schemaName, tys, tbl)
    requires tbl.rows != [] && AllExportable(NamesOf(tbl.cols), ResultOf(tbl), LAX)
    ensures Execute(rel, Exported(tbl), Emptied(tbl)) == Ok(tbl) <==> Settable(rel) && AllSurvive(tbl)
  {
    var names, rows := NamesOf(tbl.cols), ResultOf(tbl);
    ReadOrRefused(tbl.name, names, rows);
    AllExportableIff(rel, tbl);
    if Settable(rel) && AllExportable(names, rows, STRICT) {
      ReadBack(rel, schemaName, tys, tbl);
    } else if AllExportable(names, rows, STRICT) {
      NamesFound(rel, schemaName, tys, tbl);
      ComputedRefused(rel, InsertExport.Insert(tbl.name, NamesOf(tbl.cols), AllLiteralsOf(rows)), Emptied(tbl),
                      Places(|tbl.cols|));
    }
    hide ReadInsert, AllExportable, AllSurvive, RowsLegal, AllReadable, RunInsert;
  }

  /** What survives can be exported. */
  lemma AllExportableIff(rel: Relation, tbl: Table)
    requires Typed(tbl) && |tbl.cols| == |rel.columns|
    ensures Settable(rel) && AllSurvive(tbl) ==> AllExportable(NamesOf(tbl.cols), ResultOf(tbl), STRICT)
    ensures tbl.rows != [] && AllExportable(NamesOf(tbl.cols), ResultOf(tbl), STRICT) ==> rel.columns != []
  {
    hide Exportable, Decoded, ReadLiteral;
    if Settable(rel) && AllSurvive(tbl) {
      forall i | 0 <= i < |tbl.rows| ensures RowExportable(ResultOf(tbl)[i], STRICT) {
        assert TupleTyped(tbl.rows[i], tbl.cols);
        assert forall k :: 0 <= k < |tbl.cols| ==> Survives(tbl.rows[i][k], tbl.cols[k].ty);
        RowIsExportable(tbl.rows[i], tbl.cols, ResultOf(tbl)[i]);
      }
    }
    if tbl.rows != [] && AllExportable(NamesOf(tbl.cols), ResultOf(tbl), STRICT) {
      assert TupleTyped(tbl.rows[0], tbl.cols) && RowExportable(ResultOf(tbl)[0], STRICT);
    }
  }

  /** A column the server computes is refused when it is named. */
  lemma ComputedRefused(rel: Relation, q: InsertStmt, tbl: Table, idxs: seq<nat>)
    requires KeysetPaging.WellFormed(rel) && Typed(tbl) && |tbl.cols| == |rel.columns|
    requires Indexes(tbl.cols, q.columns) == Some(idxs) && NamesComputed(rel, idxs)
    ensures RunInsert(rel, q, tbl).Err?
  {
    hide RowsLegal, AllReadable, Even, KeysetPaging.WellFormed, AllTyped, TupleTyped;
  }

  // ---- cells of the types the model reads itself ------------------------------------------

  lemma {:induction false} PlainEscaped(b: Utf8.bytes)
    requires forall i :: 0 <= i < |b| ==> b[i] != '\\' as int
    ensures ReadEscaped(b) == Some(b)
  {
    if b != [] {
      PlainEscaped(b[1..]);
      assert b == [b[0]] + b[1..];
    }
  }

  /** Behind a backslash and an x the server would read the octets back. */
  lemma {:induction false} HexReadsBack(p: Utf8.bytes)
    ensures ReadHex(Utf8.Encode(HexEncode(p))) == Some(p)
  {
    if p != [] {
      HexReadsBack(p[1..]);
      HexEncoded(p);
      HexStep(p[0], Utf8.Encode(HexEncode(p[1..])));
      hide *;
      assert p == [p[0]] + p[1..];
    }
  }

  lemma HexStep(x: Utf8.byte, more: Utf8.bytes)
    requires ReadHex(more).Some?
    ensures ReadHex(Utf8.EncodeChar(HexDigit(x / 16)) + (Utf8.EncodeChar(HexDigit(x % 16)) + more)) ==
      Some([x] + ReadHex(more).value)
  {
    HexPair(x);
    DigitOctet(x / 16);
    DigitOctet(x % 16);
    hide HexDigit, HexValue, Utf8.EncodeChar, ReadHex;
    var high, low := HexDigit(x / 16) as int, HexDigit(x % 16) as int;
    ReadPair(high, low, more);
    assert [high] + ([low] + more) == [high, low] + more;
  }

  lemma ReadPair(high: Utf8.byte, low: Utf8.byte, more: Utf8.bytes)
    requires high as char !in {' ', '\t', '\n', '\r'}
    requires HexValue(high).Some? && HexValue(low).Some? && ReadHex(more).Some?
    requires HexValue(high).value * 16 + HexValue(low).value < 256
    ensures ReadHex([high, low] + more) == Some([HexValue(high).value * 16 + HexValue(low).value] + ReadHex(more).value)
  {
    hide HexValue;
    assert ([high, low] + more)[2..] == more;
  }

  lemma HexEncoded(p: Utf8.bytes)
    requires p != []
    ensures HexEncode(p) == [HexDigit(p[0] / 16)] + ([HexDigit(p[0] % 16)] + HexEncode(p[1..]))
    ensures Utf8.Encode(HexEncode(p)) ==
      Utf8.EncodeChar(HexDigit(p[0] / 16)) + (Utf8.EncodeChar(HexDigit(p[0] % 16)) + Utf8.Encode(HexEncode(p[1..])))
  {
    hide HexDigit, Utf8.EncodeChar;
    var high, low, rest := HexDigit(p[0] / 16), HexDigit(p[0] % 16), HexEncode(p[1..]);
    assert HexEncode(p) == [high] + ([low] + rest);
    hide HexEncode;
    EncodeFirst(high, [low] + rest);
    EncodeFirst(low, rest);
  }

  lemma EncodeFirst(c: char, rest: string)
    ensures Utf8.Encode([c] + rest) == Utf8.EncodeChar(c) + Utf8.Encode(rest)
  {
    assert ([c] + rest)[1..] == rest;
  }

  lemma HexPair(b: Utf8.byte)
    ensures
      var high, low := HexDigit(b / 16), HexDigit(b % 16);
      && high !in {' ', '\t', '\n', '\r'} && high as int < 256 && low as int < 256
      && HexValue(high as int) == Some(b / 16) && HexValue(low as int) == Some(b % 16)
  {
  }

  lemma DigitOctet(d: nat)
    requires d < 16
    ensures Utf8.EncodeChar(HexDigit(d)) == [HexDigit(d) as int] && HexDigit(d) != '\\'
  {
  }

  /** Hexadecimal digits are two octets to each octet shown. */
  lemma {:induction false} HexOctets(p: Utf8.bytes)
    ensures
      var b := Utf8.Encode(HexEncode(p));
      |b| == 2 * |p| && forall i :: 0 <= i < |b| ==> b[i] != '\\' as int
  {
    if p != [] {
      HexOctets(p[1..]);
      HexPair(p[0]);
      HexEncoded(p);
      DigitOctet(p[0] / 16);
      DigitOctet(p[0] % 16);
      hide HexDigit, HexEncode, Utf8.Encode, Utf8.EncodeChar, HexValue;
    }
  }

  /** Octets are stored again as the digits they are shown by, which is as many again. */
  lemma BytesAsDigits(p: Utf8.bytes)
    ensures ReadLiteral(ByteaT, LiteralOf(Decoded(Bytea(p), ByteaT))) == Some(Bytea(Utf8.Encode(HexEncode(p))))
    ensures |Utf8.Encode(HexEncode(p))| == 2 * |p|
  {
    HexOctets(p);
    hide HexEncode, Utf8.Encode, ReadEscaped, ReadHex;
    PlainEscaped(Utf8.Encode(HexEncode(p)));
    assert DisplayString(Decoded(Bytea(p), ByteaT)) == HexEncode(p);
  }

  lemma BasicLiteral(c: CellValue, ty: SqlType)
    requires HasType(c, ty) && !c.Null? && Basic(ty)
    ensures Exportable(Decoded(c, ty), STRICT) && ReadLiteral(ty, LiteralOf(Decoded(c, ty))) == Some(Decoded(c, ty))
  {
    ReadDecoded(c, ty);
    hide ReadInt, SignedDec, Utf8.Encode, Utf8.Decode, Utf8.Valid, Utf8.Cut;
  }

  /** Octets survive only where there are none, and texts up to the decoder's cap. */
  lemma SurvivesIff(c: CellValue, ty: SqlType)
    requires Stores(c, ty) && !ty.LibraryT?
    ensures Survives(c, ty) <==> (c.Text? ==> |c.payload| <= CELL_CAP) && (c.Bytea? ==> c.payload == [])
  {
    if c.Bytea? {
      BytesAsDigits(c.payload);
      hide ReadLiteral, HexEncode, Utf8.Encode, IsNumber;
    } else if !c.Null? {
      BasicLiteral(c, ty);
      hide ReadLiteral, IsNumber, LiteralOf;
    }
  }

  /** The condition on the cells, for tables of the types the model reads itself. */
  predicate ShortAndNoOctets(tbl: Table) {
    forall i, k :: 0 <= i < |tbl.rows| && 0 <= k < |tbl.rows[i]| ==>
      var c := tbl.rows[i][k];
      (c.Text? ==> |c.payload| <= CELL_CAP) && (c.Bytea? ==> c.payload == [])
  }

  lemma OwnExportable(tbl: Table)
    requires Typed(tbl) && forall k :: 0 <= k < |tbl.cols| ==> !tbl.cols[k].ty.LibraryT?
    ensures AllExportable(NamesOf(tbl.cols), ResultOf(tbl), LAX)
  {
    var rows := ResultOf(tbl);
    forall i | 0 <= i < |rows| ensures RowExportable(rows[i], LAX) {
      assert TupleTyped(tbl.rows[i], tbl.cols);
    }
  }

  lemma OwnSurvive(tbl: Table)
    requires Typed(tbl) && forall k :: 0 <= k < |tbl.cols| ==> !tbl.cols[k].ty.LibraryT?
    ensures AllSurvive(tbl) <==> ShortAndNoOctets(tbl)
  {
    TypedIsWide(tbl);
    forall i, k | 0 <= i < |tbl.rows| && 0 <= k < |tbl.cols|
      ensures
        var c := tbl.rows[i][k];
        Survives(c, tbl.cols[k].ty) <==> (c.Text? ==> |c.payload| <= CELL_CAP) && (c.Bytea? ==> c.payload == [])
    {
      assert TupleTyped(tbl.rows[i], tbl.cols);
      SurvivesIff(tbl.rows[i][k], tbl.cols[k].ty);
    }
    hide Survives, TupleTyped;
  }

  /**
   A table of booleans, integers, texts and octets is restored exactly when the server computes no
   column, no text is longer than the decoder's cap, and there are no octets.
   */
  lemma OwnRestoredIff(rel: Relation, schemaName: Option<string>, tys: seq<SqlType>, tbl: Table)
    requires KeysetPaging.WellFormed(rel) && |tys| == |rel.columns| && TableOf(rel, schemaName, tys, tbl)
    requires tbl.rows != [] && forall k :: 0 <= k < |tys| ==> !tys[k].LibraryT?
    ensures Execute(rel, Exported(tbl), Emptied(tbl)) == Ok(tbl) <==> Settable(rel) && ShortAndNoOctets(tbl)
  {
    OwnExportable(tbl);
    RestoredIff(rel, schemaName, tys, tbl);
    OwnSurvive(tbl);
    hide Exported, AllExportable, AllSurvive, ShortAndNoOctets, Execute;
  }
}
