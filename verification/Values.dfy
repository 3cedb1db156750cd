/**
 Values as a database's driver must receive them (bauta/database/values.py): a
 preparer that learns from each chunk which columns of the next to look at, and
 converts exactly what looking at every value would.
 */
module Values {
  import opened Wrappers

  // ---------- Types and conversions ----------

  datatype Database = PostgreSQL | MySQL | MariaDB | Oracle | MSSQL | SQLite | DuckDB

  /** A Python type: those the tables below name, and any other by its name and its bases in the order they are looked
      up. */
  datatype Kind =
    | NoneType | Object | Int | Bool | Str | Timedelta | Dict | List | Uuid | Time | DateTime | Date | Decimal
    | Class(name: string, bases: seq<Kind>)

  type NeitherNoneNorInt = kind: Kind | kind != NoneType && kind != Int witness Str

  /** A value: None, an int -- of exactly that type -- or one of any other type. */
  datatype Value = Null | Integer(value: int) | Of(kind: NeitherNoneNorInt, content: string)

  function KindOf(value: Value): Kind {
    match value case Null => NoneType case Integer(_) => Int case Of(kind, _) => kind
  }

  /** kind.__mro__: the type, then its bases. */
  function Bases(kind: Kind): (bases: seq<Kind>)
    ensures bases != [] && bases[0] == kind
  {
    match kind
    case Object => [Object]
    case Bool => [Bool, Int, Object]
    case DateTime => [DateTime, Date, Object]
    case Class(_, bases) => [kind] + bases
    case _ => [kind, Object]
  }

  datatype Conversion =
    | DurationText | JsonText | Text | Iso | IsoDateTime | WideInteger | PostgresqlJson | PostgresqlList

  type Table = map<Kind, Option<Conversion>>

  /** CONVERSIONS: the types each database's driver can't take as they are. */
  function Conversions(database: Database): Table {
    match database
    case PostgreSQL => map[Timedelta := Some(DurationText), Dict := Some(PostgresqlJson), List := Some(PostgresqlList)]
    case MSSQL => map[Timedelta := Some(DurationText), Dict := Some(JsonText), List := Some(JsonText),
                      DateTime := Some(IsoDateTime), Time := Some(Iso)]
    case SQLite => map[Timedelta := Some(DurationText), Dict := Some(JsonText), List := Some(JsonText),
                       Uuid := Some(Text), Time := Some(Iso),
                       DateTime := Some(IsoDateTime), Date := Some(Iso), Decimal := Some(Text),
                       Int := Some(WideInteger), Bool := None]
    case DuckDB => map[Timedelta := Some(DurationText), Int := Some(WideInteger), Bool := None]
    case _ => map[Timedelta := Some(DurationText), Dict := Some(JsonText), List := Some(JsonText), Uuid := Some(Text),
                  Time := Some(Iso)]
  }

  function NearestIn(bases: seq<Kind>, table: Table): Option<Conversion> {
    if bases == [] then None else if bases[0] in table then table[bases[0]] else NearestIn(bases[1..], table)
  }

  function ConversionFor(database: Database, kind: Kind): Option<Conversion> {
    NearestIn(Bases(kind), Conversions(database))
  }

  /** A type's own entry wins over its bases': a bool is not converted as the int it is a subclass of,
      nor a datetime as a date where it has an entry; a type with none takes its nearest base's. */
  lemma {:induction false} NearestBaseDecides(bases: seq<Kind>, table: Table, k: nat)
    requires k < |bases| && bases[k] in table && forall i :: 0 <= i < k ==> bases[i] !in table
    ensures NearestIn(bases, table) == table[bases[k]]
  {
    if k > 0 {
      forall i | 0 <= i < k - 1 ensures bases[1..][i] !in table {
        assert bases[1..][i] == bases[i + 1];
      }
      NearestBaseDecides(bases[1..], table, k - 1);
    }
  }

  lemma NullsAreSentAsTheyAre(database: Database)
    ensures ConversionFor(database, NoneType).None?
  {
    assert Bases(NoneType) == [NoneType, Object];
    assert [NoneType, Object][1..] == [Object];
    assert [Object][1..] == [];
  }

  predicate FitsIn64Bits(n: int) {
    -0x8000_0000_0000_0000 <= n < 0x8000_0000_0000_0000
  }

  type ColumnType = Option<nat>

  /** What a conversion makes of a value: an int within 64 bits is sent as it is, and
      everything else is what `convert` says. */
  function Apply(convert: (Conversion, Value, ColumnType) -> Value, conversion: Conversion, value: Value,
                 columnType: ColumnType): Value {
    if conversion.WideInteger? && value.Integer? && FitsIn64Bits(value.value) then value
    else convert(conversion, value, columnType)
  }

  /** A value as the driver must receive it, whatever else its chunk holds. */
  function Plain(database: Database, convert: (Conversion, Value, ColumnType) -> Value, value: Value,
                 columnType: ColumnType): Value {
    match ConversionFor(database, KindOf(value))
    case None => value
    case Some(conversion) => Apply(convert, conversion, value, columnType)
  }

  // ---------- Chunks ----------

  type Row = seq<Value>

  predicate Rectangular(rows: seq<Row>, width: nat) {
    forall i :: 0 <= i < |rows| ==> |rows[i]| == width
  }

  function Column(rows: seq<Row>, width: nat, j: nat): (column: seq<Value>)
    requires Rectangular(rows, width) && j < width
    ensures |column| == |rows| && forall i :: 0 <= i < |rows| ==> column[i] == rows[i][j]
  {
    seq(|rows|, i requires 0 <= i < |rows| => rows[i][j])
  }

  function Transposed(rows: seq<Row>, width: nat): (columns: seq<seq<Value>>)
    requires Rectangular(rows, width)
    ensures |columns| == width && forall j :: 0 <= j < width ==> columns[j] == Column(rows, width, j)
  {
    seq(width, j requires 0 <= j < width => Column(rows, width, j))
  }

  function KindsOf(values: seq<Value>): (kinds: set<Kind>) {
    set i | 0 <= i < |values| :: KindOf(values[i])
  }

  function ColumnTypeAt(columnTypes: Option<seq<ColumnType>>, j: nat): ColumnType {
    if columnTypes.Some? && j < |columnTypes.value| then columnTypes.value[j] else None
  }

  /** What the native extension finds in one pass: each column's types, and whether its ints all fit. */
  datatype Found = Found(kinds: seq<set<Kind>>, fits: seq<bool>)

  ghost predicate IsFound(rows: seq<Row>, width: nat, found: Found)
    requires Rectangular(rows, width)
  {
    && |found.kinds| == |found.fits| == width
    && forall j :: 0 <= j < width ==>
         && found.kinds[j] == KindsOf(Column(rows, width, j))
         && (found.fits[j] ==> AllFit(Column(rows, width, j)))
  }

  ghost predicate AllFit(column: seq<Value>) {
    forall i :: 0 <= i < |column| && column[i].Integer? ==> FitsIn64Bits(column[i].value)
  }

  /** A column as the driver must receive it. */
  ghost function PlainColumn(database: Database, convert: (Conversion, Value, ColumnType) -> Value, column: seq<Value>,
                             columnType: ColumnType): (plain: seq<Value>)
    ensures |plain| == |column| && forall i :: 0 <= i < |column| ==>
              plain[i] == Plain(database, convert, column[i], columnType)
  {
    seq(|column|, i requires 0 <= i < |column| => Plain(database, convert, column[i], columnType))
  }

  /** A chunk as the driver must receive it: every value by itself. */
  ghost predicate IsPlain(database: Database, convert: (Conversion, Value, ColumnType) -> Value, rows: seq<Row>,
                          columnTypes: Option<seq<ColumnType>>, prepared: seq<Row>)
  {
    && |prepared| == |rows|
    && (forall i :: 0 <= i < |rows| ==> |prepared[i]| == |rows[i]|)
    && forall i, j :: 0 <= i < |rows| && 0 <= j < |rows[i]| ==>
         prepared[i][j] == Plain(database, convert, rows[i][j], ColumnTypeAt(columnTypes, j))
  }

  /** There is one such chunk, so what a preparer saw before cannot change what it returns. */
  lemma PlainIsOne(database: Database, convert: (Conversion, Value, ColumnType) -> Value, rows: seq<Row>,
                   columnTypes: Option<seq<ColumnType>>, a: seq<Row>, b: seq<Row>)
    requires IsPlain(database, convert, rows, columnTypes, a) && IsPlain(database, convert, rows, columnTypes, b)
    ensures a == b
  {
    hide Plain, ColumnTypeAt;
    forall i | 0 <= i < |rows| ensures a[i] == b[i] {
      forall j | 0 <= j < |rows[i]| ensures a[i][j] == b[i][j] {
        assert a[i][j] == Plain(database, convert, rows[i][j], ColumnTypeAt(columnTypes, j));
      }
    }
  }

  /** min and max of some ints. */
  method Extremes(values: seq<int>) returns (least: int, greatest: int)
    requires values != []
    ensures least in values && greatest in values
    ensures forall i :: 0 <= i < |values| ==> least <= values[i] <= greatest
  {
    least, greatest := values[0], values[0];
    for i := 1 to |values|
      invariant least in values && greatest in values
      invariant forall k :: 0 <= k < i ==> least <= values[k] <= greatest
    {
      least := if values[i] < least then values[i] else least;
      greatest := if values[i] > greatest then values[i] else greatest;
    }
  }

  /** _fitIn64Bits: the smallest and the largest stand for the rest. */
  method FitIn64Bits(column: seq<Value>) returns (fit: bool)
    requires KindsOf(column) <= {Int, NoneType}
    ensures fit <==> AllFit(column)
  {
    var values: seq<int> := [];
    for i := 0 to |column|
      invariant forall n :: n in values ==> IsInteger(column, n)
      invariant forall k :: 0 <= k < i && column[k].Integer? ==> column[k].value in values
    {
      assert KindOf(column[i]) in KindsOf(column);
      if !column[i].Null? {
        values := values + [column[i].value];
      }
    }
    if values == [] {
      return true;
    }
    var least, greatest := Extremes(values);
    fit := FitsIn64Bits(least) && FitsIn64Bits(greatest);
    assert IsInteger(column, least) && IsInteger(column, greatest);
    forall i | fit && 0 <= i < |column| && column[i].Integer? ensures FitsIn64Bits(column[i].value) {
      var k :| 0 <= k < |values| && values[k] == column[i].value;
    }
  }

  ghost predicate IsInteger(column: seq<Value>, n: int) {
    exists i :: 0 <= i < |column| && column[i] == Integer(n)
  }

  // ---------- The preparer ----------

  const ROWS_PER_SIGNATURE := 8

  class ValuePreparer {
    const database: Database
    const convert: (Conversion, Value, ColumnType) -> Value
    /** Whether two values are one object, which Python's `is` asks. */
    const isSame: (Value, Value) -> bool
    var converting: bool
    var bySignature: bool
    var cached: map<Kind, Option<Conversion>>

    ghost predicate Valid()
      reads this
    {
      && (forall kind :: kind in cached ==> cached[kind] == ConversionFor(database, kind))
      && (forall a, b :: isSame(a, b) ==> a == b)
    }

    constructor (database: Database, convert: (Conversion, Value, ColumnType) -> Value, isSame: (Value, Value) -> bool)
      requires forall a, b :: isSame(a, b) ==> a == b
      ensures Valid() && this.database == database && this.convert == convert && this.isSame == isSame
    {
      this.database, this.convert, this.isSame := database, convert, isSame;
      converting, bySignature, cached := false, true, map[];
    }

    /** conversionFor, which keeps what it finds. */
    method Find(kind: Kind) returns (conversion: Option<Conversion>)
      requires Valid()
      modifies this`cached
      ensures Valid() && conversion == ConversionFor(database, kind)
    {
      if kind !in cached {
        cached := cached[kind := ConversionFor(database, kind)];
      }
      conversion := cached[kind];
    }

    /** The types of a chunk's columns; None where no value has a conversion. */
    method KindsInPython(rows: seq<Row>, width: nat)
      returns (kinds: Option<seq<set<Kind>>>, columns: Option<seq<seq<Value>>>)
      requires Valid() && rows != [] && Rectangular(rows, width)
      modifies this
      ensures Valid()
      ensures kinds.None? ==> forall i, j :: 0 <= i < |rows| && 0 <= j < width ==>
                ConversionFor(database, KindOf(rows[i][j])).None?
      ensures kinds.Some? ==> |kinds.value| == width && forall j :: 0 <= j < width ==>
                kinds.value[j] == KindsOf(Column(rows, width, j))
      ensures columns.Some? ==> columns.value == Transposed(rows, width)
    {
      hide ConversionFor;
      if !converting {
        var any := AnyToConvert(rows, width);
        if !any {
          return None, None;
        }
      }
      if bySignature {
        var signatures := Signatures(rows);
        if |signatures| * ROWS_PER_SIGNATURE <= |rows| {
          SignaturesTell(rows, width);
          kinds := Some(seq(width, j requires 0 <= j < width =>
                              set signature | signature in signatures :: signature[j]));
          return kinds, None;
        }
        bySignature := false;
      }
      var transposed := Transposed(rows, width);
      return Some(seq(width, j requires 0 <= j < width => KindsOf(transposed[j]))), Some(transposed);
    }

    method AnyToConvert(rows: seq<Row>, width: nat) returns (any: bool)
      requires Valid() && Rectangular(rows, width)
      modifies this`cached
      ensures Valid()
      ensures !any ==> forall i, j :: 0 <= i < |rows| && 0 <= j < width ==>
                ConversionFor(database, KindOf(rows[i][j])).None?
    {
      hide ConversionFor;
      for i := 0 to |rows|
        invariant Valid()
        invariant forall k, j :: 0 <= k < i && 0 <= j < width ==> ConversionFor(database, KindOf(rows[k][j])).None?
      {
        for j := 0 to width
          invariant Valid()
          invariant forall k :: 0 <= k < j ==> ConversionFor(database, KindOf(rows[i][k])).None?
        {
          var conversion := Find(KindOf(rows[i][j]));
          if conversion.Some? {
            return true;
          }
        }
      }
      return false;
    }

    /** A column converted, or None where it is kept: nothing to convert, ints that
        all fit, or conversions that left every value the object it was. */
    method ConvertColumn(column: seq<Value>, kinds: set<Kind>, fits: Option<bool>, columnType: ColumnType)
      returns (converted: Option<seq<Value>>)
      requires Valid() && kinds == KindsOf(column)
      requires fits == Some(true) ==> AllFit(column)
      modifies this
      ensures Valid()
      ensures converted.Some? ==> |converted.value| == |column|
      ensures PlainColumn(database, convert, column, columnType) == if converted.Some? then converted.value else column
    {
      hide ConversionFor, PlainColumn, Applying;
      var conversions: map<Kind, Option<Conversion>> := map kind | kind in kinds :: ConversionFor(database, kind);
      var applying := Applying(kinds, conversions);
      forall i | 0 <= i < |column| ensures KindOf(column[i]) in kinds {
      }
      if applying == {} {
        NothingApplies(database, convert, column, kinds, conversions, columnType);
        return None;
      }
      converting := true;
      if applying == {WideInteger} && kinds <= {Int, NoneType} {
        var fit;
        if fits.Some? {
          fit := fits.value;
        } else {
          fit := FitIn64Bits(column);
        }
        if fit {
          IntsThatFit(database, convert, column, kinds, conversions, columnType);
          return None;
        }
      }
      var values := seq(|column|, i requires 0 <= i < |column| =>
        match conversions[KindOf(column[i])]
        case None => column[i]
        case Some(conversion) => Apply(convert, conversion, column[i], columnType));
      assert values == PlainColumn(database, convert, column, columnType);
      if forall i :: 0 <= i < |column| ==> isSame(values[i], column[i]) {
        assert values == column;
        return None;
      }
      return Some(values);
    }

    /** prepare, with what the native extension found of the chunk, where it is in use. */
    method Prepare(rows: seq<Row>, width: nat, columnTypes: Option<seq<ColumnType>>, native: Option<Found>)
      returns (prepared: seq<Row>)
      requires Valid() && Rectangular(rows, width) && (native.Some? ==> IsFound(rows, width, native.value))
      modifies this
      ensures Valid() && IsPlain(database, convert, rows, columnTypes, prepared)
    {
      hide ConversionFor, Column, Transposed, KindsOf, PlainColumn, AllFit, Plain, IsPlain;
      if rows == [] {
        NoRows(database, convert, columnTypes);
        return rows;
      }
      var columns: Option<seq<seq<Value>>> := None;
      var kinds;
      if native.Some? {
        kinds := native.value.kinds;
      } else {
        var found;
        found, columns := KindsInPython(rows, width);
        if found.None? {
          NothingToConvert(database, convert, rows, width, columnTypes);
          return rows;
        }
        kinds := found.value;
      }

      converting := false;
      var converted: map<nat, seq<Value>> := map[];
      for j := 0 to width
        invariant Valid() && forall k :: k in converted ==> k < j && |converted[k]| == |rows|
        invariant forall k :: 0 <= k < j ==>
          PlainColumn(database, convert, Column(rows, width, k), ColumnTypeAt(columnTypes, k)) ==
              Replaced(rows, width, converted, k)
      {
        var column := if columns.Some? then columns.value[j] else Column(rows, width, j);
        var fits := if native.Some? then Some(native.value.fits[j]) else None;
        var values := ConvertColumn(column, kinds[j], fits, ColumnTypeAt(columnTypes, j));
        if values.Some? {
          converted := converted[j := values.value];
        }
      }
      if converted == map[] {
        NothingConverted(rows, width);
        ColumnsArePlain(database, convert, rows, width, columnTypes, map[], rows);
        return rows;
      }
      columns := if columns.None? then Some(Transposed(rows, width)) else columns;
      var replaced := seq(width, j requires 0 <= j < width =>
                          if j in converted then converted[j] else columns.value[j]);
      assert forall j :: 0 <= j < width ==> |replaced[j]| == |rows|;
      prepared := seq(|rows|, i requires 0 <= i < |rows| => seq(width, j requires 0 <= j < width => replaced[j][i]));
      ColumnsArePlain(database, convert, rows, width, columnTypes, converted, prepared);
    }
  }

  /** A column, as converted where it was. */
  function Replaced(rows: seq<Row>, width: nat, converted: map<nat, seq<Value>>, j: nat): seq<Value>
    requires Rectangular(rows, width) && j < width
  {
    if j in converted then converted[j] else Column(rows, width, j)
  }

  function Signature(row: Row): (signature: seq<Kind>)
    ensures |signature| == |row| && forall j :: 0 <= j < |row| ==> signature[j] == KindOf(row[j])
  {
    seq(|row|, j requires 0 <= j < |row| => KindOf(row[j]))
  }

  function Signatures(rows: seq<Row>): set<seq<Kind>> {
    set i | 0 <= i < |rows| :: Signature(rows[i])
  }

  /** The distinct signatures hold each column's types. */
  lemma SignaturesTell(rows: seq<Row>, width: nat)
    requires Rectangular(rows, width)
    ensures forall signature :: signature in Signatures(rows) ==> |signature| == width
    ensures forall j :: 0 <= j < width ==>
              (set signature | signature in Signatures(rows) :: signature[j]) == KindsOf(Column(rows, width, j))
  {
    forall j | 0 <= j < width
      ensures (set signature | signature in Signatures(rows) :: signature[j]) == KindsOf(Column(rows, width, j))
    {
      var column := Column(rows, width, j);
      forall kind | kind in KindsOf(column)
        ensures kind in (set signature | signature in Signatures(rows) :: signature[j])
      {
        var i :| 0 <= i < |rows| && KindOf(column[i]) == kind;
        assert Signature(rows[i]) in Signatures(rows) && Signature(rows[i])[j] == kind;
      }
      forall signature | signature in Signatures(rows) ensures signature[j] in KindsOf(column) {
        var i :| 0 <= i < |rows| && signature == Signature(rows[i]);
        assert KindOf(column[i]) == signature[j];
      }
    }
  }

  lemma IsApplying(kinds: set<Kind>, conversions: map<Kind, Option<Conversion>>, kind: Kind)
    requires kinds <= conversions.Keys && kind in kinds && conversions[kind].Some?
    ensures conversions[kind].value in Applying(kinds, conversions)
  {
  }

  function Applying(kinds: set<Kind>, conversions: map<Kind, Option<Conversion>>): set<Conversion>
    requires kinds <= conversions.Keys
  {
    set kind | kind in kinds && conversions[kind].Some? :: conversions[kind].value
  }

  lemma NothingApplies(database: Database, convert: (Conversion, Value, ColumnType) -> Value, column: seq<Value>,
                       kinds: set<Kind>,
                       conversions: map<Kind, Option<Conversion>>, columnType: ColumnType)
    requires kinds == KindsOf(column) && conversions.Keys == kinds
    requires forall kind :: kind in kinds ==> conversions[kind] == ConversionFor(database, kind)
    requires Applying(kinds, conversions) == {}
    ensures PlainColumn(database, convert, column, columnType) == column
  {
    hide ConversionFor;
    forall i | 0 <= i < |column| ensures Plain(database, convert, column[i], columnType) == column[i] {
      var kind := KindOf(column[i]);
      assert kind in kinds;
      if conversions[kind].Some? {
        IsApplying(kinds, conversions, kind);
      }
    }
  }

  lemma IntsThatFit(database: Database, convert: (Conversion, Value, ColumnType) -> Value, column: seq<Value>,
                    kinds: set<Kind>,
                    conversions: map<Kind, Option<Conversion>>, columnType: ColumnType)
    requires kinds == KindsOf(column) && conversions.Keys == kinds && kinds <= {Int, NoneType} && AllFit(column)
    requires forall kind :: kind in kinds ==> conversions[kind] == ConversionFor(database, kind)
    requires Applying(kinds, conversions) == {WideInteger}
    ensures PlainColumn(database, convert, column, columnType) == column
  {
    hide ConversionFor, Applying;
    NullsAreSentAsTheyAre(database);
    forall i | 0 <= i < |column| ensures Plain(database, convert, column[i], columnType) == column[i] {
      var kind := KindOf(column[i]);
      assert kind in kinds;
      if conversions[kind].Some? {
        IsApplying(kinds, conversions, kind);
      }
    }
  }

  lemma NoRows(database: Database, convert: (Conversion, Value, ColumnType) -> Value,
               columnTypes: Option<seq<ColumnType>>)
    ensures IsPlain(database, convert, [], columnTypes, [])
  {
  }

  lemma NothingToConvert(database: Database, convert: (Conversion, Value, ColumnType) -> Value, rows: seq<Row>,
                         width: nat,
                         columnTypes: Option<seq<ColumnType>>)
    requires Rectangular(rows, width)
    requires forall i, j :: 0 <= i < |rows| && 0 <= j < width ==> ConversionFor(database, KindOf(rows[i][j])).None?
    ensures IsPlain(database, convert, rows, columnTypes, rows)
  {
    hide ConversionFor;
  }

  lemma NothingConverted(rows: seq<Row>, width: nat)
    requires Rectangular(rows, width)
    ensures forall i, j :: 0 <= i < |rows| && 0 <= j < width ==> Replaced(rows, width, map[], j)[i] == rows[i][j]
  {
  }

  lemma ColumnsArePlain(database: Database, convert: (Conversion, Value, ColumnType) -> Value, rows: seq<Row>,
                        width: nat,
                        columnTypes: Option<seq<ColumnType>>, converted: map<nat, seq<Value>>, prepared: seq<Row>)
    requires Rectangular(rows, width) && |prepared| == |rows| && Rectangular(prepared, width)
    requires forall j :: 0 <= j < width ==>
               PlainColumn(database, convert, Column(rows, width, j), ColumnTypeAt(columnTypes, j)) ==
                   Replaced(rows, width, converted, j)
    requires forall j :: 0 <= j < width ==> |Replaced(rows, width, converted, j)| == |rows|
    requires forall i, j :: 0 <= i < |rows| && 0 <= j < width ==>
               prepared[i][j] == Replaced(rows, width, converted, j)[i]
    ensures IsPlain(database, convert, rows, columnTypes, prepared)
  {
    hide Plain, ColumnTypeAt, Replaced;
    forall i, j | 0 <= i < |rows| && 0 <= j < width
      ensures prepared[i][j] == Plain(database, convert, rows[i][j], ColumnTypeAt(columnTypes, j))
    {
      assert prepared[i][j] == Replaced(rows, width, converted, j)[i];
      assert Column(rows, width, j)[i] == rows[i][j];
    }
  }
}
