// lookup.c: search of a table of (id, description) pairs that ends with
// an entry whose id is -1, as the tables of dvb_info_tables.c do.
module Lookup {
  import opened Wrappers
  import opened Format

  /** One row of a lookup table; the description may be NULL. */
  datatype Entry = Entry(id: int, desc: Option<string>)

  /** The table ends with the -1 sentinel somewhere. */
  predicate Terminated(table: seq<Entry>)
  {
    exists k :: 0 <= k < |table| && table[k].id == -1
  }

  /** Where the scan stops: the first row at or after `from` whose id is the
      one sought or the sentinel. */
  function StopAt(table: seq<Entry>, id: int, from: nat): (k: nat)
    requires exists j :: from <= j < |table| && table[j].id == -1
    ensures from <= k < |table|
    ensures table[k].id == id || table[k].id == -1
    ensures forall j :: from <= j < k ==> table[j].id != id && table[j].id != -1
    decreases |table| - from
  {
    if table[from].id == id || table[from].id == -1 then from else StopAt(table, id, from + 1)
  }

  /** The text lookup returns for the row where the scan stops. */
  function Describe(e: Entry, id: int): string
  {
    match e.desc
    case Some(d) => d
    case None => "Unknown ID: " + HexInt(id)
  }

  /** lookup: advances over the rows until the id or the sentinel is found.
      The table is only read. */
  method Find(table: seq<Entry>, id: int) returns (r: string)
    requires Terminated(table)
    ensures r == Describe(table[StopAt(table, id, 0)], id)
  {
    var l := 0;
    while table[l].id != id && table[l].id != -1
      invariant 0 <= l <= StopAt(table, id, 0)
      decreases StopAt(table, id, 0) - l
    {
      l := l + 1;
    }
    if table[l].desc.None? {
      r := "Unknown ID: " + HexInt(id);
    } else {
      r := table[l].desc.value;
    }
  }

  /** The description of the first row with the id, when no sentinel comes before it. */
  lemma FindsFirstMatch(table: seq<Entry>, id: int, k: nat, d: string)
    requires k < |table| && table[k].id == id && table[k].desc == Some(d)
    requires forall j :: 0 <= j < k ==> table[j].id != id && table[j].id != -1
    requires Terminated(table)
    ensures Describe(table[StopAt(table, id, 0)], id) == d
  {
    assert StopAt(table, id, 0) == k;
  }

  /** Reaching the sentinel gives "Unknown ID: <hex>". */
  lemma UnknownAtSentinel(table: seq<Entry>, id: int, k: nat)
    requires k < |table| && table[k].id == -1 && table[k].desc.None?
    requires forall j :: 0 <= j < k ==> table[j].id != id && table[j].id != -1
    ensures Terminated(table)
    ensures Describe(table[StopAt(table, id, 0)], id) == "Unknown ID: " + HexInt(id)
  {
    assert StopAt(table, id, 0) == k;
  }
}
