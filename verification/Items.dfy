/**
 * The fields of a table row. The source's `Item<T...>` keeps them in a tuple whose
 * element types come from the template arguments; here a row has a schema, and its
 * data is a sequence of values that agrees with the schema column by column.
 */
module Items {
  import opened Wrappers

  /** The alternatives of `Item::variant_t`. */
  datatype Variant = Int64(i: int) | Text(s: string) | Bool(b: bool) | Byte(u: int) | Double(d: real)

  datatype FieldType = TInt64 | TText | TBool | TByte | TDouble

  datatype Column = Column(property: string, ty: FieldType)

  type Schema = seq<Column>
  type Data = seq<Variant>
  type Fields = map<string, Variant>

  /** `std::holds_alternative`. */
  predicate HoldsType(v: Variant, ty: FieldType) {
    match ty
    case TInt64 => v.Int64?
    case TText => v.Text?
    case TBool => v.Bool?
    case TByte => v.Byte?
    case TDouble => v.Double?
  }

  ghost predicate Typed(schema: Schema, d: Data) {
    |d| == |schema| && forall i :: 0 <= i < |d| ==> HoldsType(d[i], schema[i].ty)
  }

  /** The map carries the column's property with the column's type. */
  predicate Supplies(fields: Fields, c: Column) {
    c.property in fields && HoldsType(fields[c.property], c.ty)
  }

  /** `setField`: the supplied value if its type fits, else the old one. */
  function Pick(c: Column, fields: Fields, v: Variant): Variant {
    if Supplies(fields, c) then fields[c.property] else v
  }

  /** The row data after every column has taken its value from `fields`, if supplied. */
  function Merge(schema: Schema, d: Data, fields: Fields): (r: Data)
    ensures |r| == |d|
    ensures Typed(schema, d) ==> Typed(schema, r)
  {
    seq(|d|, i requires 0 <= i < |d| =>
      if i < |schema| then Pick(schema[i], fields, d[i]) else d[i])
  }

  /** Field maps applied one after the other. */
  function MergeAll(schema: Schema, d: Data, maps: seq<Fields>): (r: Data)
    ensures |r| == |d|
    ensures Typed(schema, d) ==> Typed(schema, r)
    decreases |maps|
  {
    if maps == [] then d else MergeAll(schema, Merge(schema, d, maps[0]), maps[1..])
  }

  /** What the last map that supplies the column says. */
  function LastSupply(maps: seq<Fields>, c: Column): Option<Variant> {
    if maps == [] then None
    else if Supplies(maps[|maps| - 1], c) then Some(maps[|maps| - 1][c.property])
    else LastSupply(maps[..|maps| - 1], c)
  }

  lemma {:induction false} MergeAllSnoc(schema: Schema, d: Data, maps: seq<Fields>, fields: Fields)
    ensures MergeAll(schema, d, maps + [fields]) == Merge(schema, MergeAll(schema, d, maps), fields)
    decreases |maps|
  {
    if maps == [] {
      assert [fields][1..] == [];
    } else {
      assert (maps + [fields])[1..] == maps[1..] + [fields];
      MergeAllSnoc(schema, Merge(schema, d, maps[0]), maps[1..], fields);
    }
  }

  /** Each column ends with its last well-typed supply, and keeps its old value without one. */
  lemma {:induction false} MergeAllAt(schema: Schema, d: Data, maps: seq<Fields>, i: nat)
    requires i < |d|
    ensures MergeAll(schema, d, maps)[i] == if i < |schema| then LastSupply(maps, schema[i]).GetOr(d[i]) else d[i]
  {
    if maps != [] {
      var front, last := maps[..|maps| - 1], maps[|maps| - 1];
      assert maps == front + [last];
      MergeAllSnoc(schema, d, front, last);
      MergeAllAt(schema, d, front, i);
    }
  }

  lemma {:induction false} LastSupplyIsASupply(maps: seq<Fields>, c: Column)
    ensures LastSupply(maps, c).Some? ==>
              exists m :: m in maps && Supplies(m, c) && m[c.property] == LastSupply(maps, c).value
    ensures LastSupply(maps, c).None? ==> forall m :: m in maps ==> !Supplies(m, c)
  {
    if maps != [] {
      var front, last := maps[..|maps| - 1], maps[|maps| - 1];
      assert maps == front + [last];
      LastSupplyIsASupply(front, c);
    }
  }

  /** No two maps carry different well-typed values of the column. */
  ghost predicate AgreeOn(maps: seq<Fields>, c: Column) {
    forall m, n :: m in maps && n in maps && Supplies(m, c) && Supplies(n, c) ==>
      m[c.property] == n[c.property]
  }

  ghost predicate Agree(schema: Schema, maps: seq<Fields>) {
    forall i :: 0 <= i < |schema| ==> AgreeOn(maps, schema[i])
  }

  /** `merged` supplies exactly what some of the maps supply. */
  ghost predicate IsUnion(schema: Schema, maps: seq<Fields>, merged: Fields) {
    forall i :: 0 <= i < |schema| ==> UnionAt(schema[i], maps, merged)
  }

  ghost predicate UnionAt(c: Column, maps: seq<Fields>, merged: Fields) {
    && (Supplies(merged, c) ==> exists m :: m in maps && Supplies(m, c))
    && (forall m :: m in maps && Supplies(m, c) ==> Supplies(merged, c) && merged[c.property] == m[c.property])
  }

  /** Applying the maps one by one is applying their union once. */
  lemma ApplyingOneByOneIsApplyingTheUnion(schema: Schema, d: Data, maps: seq<Fields>, merged: Fields)
    requires IsUnion(schema, maps, merged)
    ensures MergeAll(schema, d, maps) == Merge(schema, d, merged)
  {
    forall i | 0 <= i < |d|
      ensures MergeAll(schema, d, maps)[i] == Merge(schema, d, merged)[i]
    {
      MergeAllAt(schema, d, maps, i);
      if i < |schema| {
        assert UnionAt(schema[i], maps, merged);
        LastSupplyIsASupply(maps, schema[i]);
      }
    }
  }

  /** The order of maps that agree with each other does not matter. */
  lemma OrderOfAgreeingMapsIsIrrelevant(schema: Schema, d: Data, maps: seq<Fields>, other: seq<Fields>)
    requires Agree(schema, maps)
    requires forall m :: m in maps <==> m in other
    ensures MergeAll(schema, d, maps) == MergeAll(schema, d, other)
  {
    forall i | 0 <= i < |d|
      ensures MergeAll(schema, d, maps)[i] == MergeAll(schema, d, other)[i]
    {
      MergeAllAt(schema, d, maps, i);
      MergeAllAt(schema, d, other, i);
      if i < |schema| {
        assert AgreeOn(maps, schema[i]);
        LastSupplyIsASupply(maps, schema[i]);
        LastSupplyIsASupply(other, schema[i]);
      }
    }
  }

  /** A second pass over the same maps ends where the first one did, agreeing or not. */
  lemma MergeAllTwice(schema: Schema, d: Data, maps: seq<Fields>)
    ensures MergeAll(schema, MergeAll(schema, d, maps), maps) == MergeAll(schema, d, maps)
  {
    var e := MergeAll(schema, d, maps);
    forall i | 0 <= i < |d|
      ensures MergeAll(schema, e, maps)[i] == e[i]
    {
      MergeAllAt(schema, d, maps, i);
      MergeAllAt(schema, e, maps, i);
    }
  }

  /** When the maps agree, no map on its own changes the outcome of all of them. */
  lemma AgreeingMapsAreStable(schema: Schema, d: Data, maps: seq<Fields>, m: Fields)
    requires Agree(schema, maps) && m in maps
    ensures Merge(schema, MergeAll(schema, d, maps), m) == MergeAll(schema, d, maps)
  {
    var e := MergeAll(schema, d, maps);
    forall i | 0 <= i < |d|
      ensures Merge(schema, e, m)[i] == e[i]
    {
      MergeAllAt(schema, d, maps, i);
      if i < |schema| {
        assert AgreeOn(maps, schema[i]);
        LastSupplyIsASupply(maps, schema[i]);
      }
    }
  }
}
