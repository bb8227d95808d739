/** The listing records of the data store and the six-field projection that
    `Property.objects.all().values(...)` materialises. */
module Listings {

  /** One projected row: exactly the six fields the lookup asks for.
      `price` (a decimal) and `createdAt` (a timestamp) are kept as opaque
      text; nothing computes with them. */
  datatype Row = Row(
    id: int,
    title: string,
    description: string,
    price: string,
    location: string,
    createdAt: string)

  /** A stored listing. The table's full column list lives in a model file
      that is not part of this model; any columns beyond the six projected
      ones are kept in `others`, which the projection drops. */
  datatype Property = Property(
    id: int,
    title: string,
    description: string,
    price: string,
    location: string,
    createdAt: string,
    others: map<string, string>)

  /** `.values('id', 'title', 'description', 'price', 'location', 'created_at')`
      applied to one record. */
  function ProjectRecord(p: Property): Row
  {
    Row(p.id, p.title, p.description, p.price, p.location, p.createdAt)
  }

  /** The projection of a whole table, in table order. */
  function Project(table: seq<Property>): seq<Row>
  {
    if table == [] then [] else [ProjectRecord(table[0])] + Project(table[1..])
  }

  /** Projection distributes over concatenation, so it can be built one
      record at a time. */
  lemma {:induction false} ProjectAppend(table: seq<Property>, p: Property)
    ensures Project(table + [p]) == Project(table) + [ProjectRecord(p)]
  {
    if table == [] {
      assert table + [p] == [p];
    } else {
      assert (table + [p])[1..] == table[1..] + [p];
      ProjectAppend(table[1..], p);
    }
  }

  /** The projection keeps every record, in table order, and each row holds
      exactly the six fields of the record at the same position. */
  lemma {:induction false} ProjectAt(table: seq<Property>, i: nat)
    requires i < |table|
    ensures |Project(table)| == |table|
    ensures Project(table)[i] == ProjectRecord(table[i])
  {
    if i == 0 {
      ProjectLength(table);
    } else {
      ProjectAt(table[1..], i - 1);
    }
  }

  lemma {:induction false} ProjectLength(table: seq<Property>)
    ensures |Project(table)| == |table|
  {
    if table != [] {
      ProjectLength(table[1..]);
    }
  }

  /** The data store: a table the lookup only ever reads. */
  class Store {
    var records: seq<Property>

    constructor (records: seq<Property>)
      ensures this.records == records
    {
      this.records := records;
    }

    /** `list(Property.objects.all().values(...))`: scan the whole table
        eagerly and collect the projected rows. */
    method ValuesAll() returns (rows: seq<Row>)
      ensures rows == Project(records)
    {
      rows := [];
      var i := 0;
      while i < |records|
        invariant 0 <= i <= |records|
        invariant rows == Project(records[..i])
      {
        ProjectAppend(records[..i], records[i]);
        assert records[..i + 1] == records[..i] + [records[i]];
        rows := rows + [ProjectRecord(records[i])];
        i := i + 1;
      }
      assert records[..i] == records;
    }
  }
}
