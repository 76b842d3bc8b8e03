/** The ATM table and the freshness-gated refresh policy of the list and
    detail endpoints. Time is an integer count of microseconds (the
    resolution of the source's datetimes); the table is an in-memory
    sequence in insertion order. The clock readings a request makes are
    parameters: `now` for the freshness threshold, and one reading per row
    inserted on a refresh. */
module AtmStore {
  import opened Wrappers
  import opened Generator

  /** The freshness window: 15 minutes, in microseconds. */
  const FreshWindow: int := 15 * 60 * 1000000

  /** One row of the ATM table. */
  datatype Atm = Atm(id: int, name: string, lat: real, lng: real, address: string,
                     services: seq<string>, fetchedAt: int)

  /** A row is fresh at `now` when it was fetched at or after `now` minus the
      window; the boundary itself counts as fresh. */
  predicate IsFresh(a: Atm, now: int) {
    a.fetchedAt >= now - FreshWindow
  }

  /** The rows the freshness query selects, in table order. */
  function FreshRecords(rs: seq<Atm>, now: int): (r: seq<Atm>)
    ensures |r| <= |rs|
    ensures forall a :: a in r <==> a in rs && IsFresh(a, now)
  {
    if rs == [] then []
    else (if IsFresh(rs[0], now) then [rs[0]] else []) + FreshRecords(rs[1..], now)
  }

  /** The clock readings taken one per inserted row, after the request's first
      reading `now`: none earlier than `now`, and never going backwards. */
  predicate ClockReadings(now: int, stamps: seq<int>) {
    && (forall i :: 0 <= i < |stamps| ==> now <= stamps[i])
    && (forall i, j :: 0 <= i < j < |stamps| ==> stamps[i] <= stamps[j])
  }

  /** The row a generated record becomes when inserted with this id at this time. */
  function Stamp(d: AtmData, id: int, fetchedAt: int): Atm {
    Atm(id, d.name, d.lat, d.lng, d.address, d.services, fetchedAt)
  }

  /** The table right after a refresh with `batch`: an emptied table that has
      had the batch inserted in order, so the row ids start again at 1, each
      row stamped with the clock reading taken for it. */
  function Refreshed(batch: seq<AtmData>, stamps: seq<int>): seq<Atm>
    requires |stamps| == |batch|
  {
    seq(|batch|, i requires 0 <= i < |batch| => Stamp(batch[i], i + 1, stamps[i]))
  }

  predicate IdsDistinct(rs: seq<Atm>) {
    forall i, j :: 0 <= i < j < |rs| ==> rs[i].id != rs[j].id
  }

  /** The fetch times never decrease along the table. */
  predicate StampsOrdered(rs: seq<Atm>) {
    forall i, j :: 0 <= i < j < |rs| ==> rs[i].fetchedAt <= rs[j].fetchedAt
  }

  /** Primary-key lookup: the row with this id, or nothing. */
  function Lookup(rs: seq<Atm>, id: int): (r: Option<Atm>)
    ensures r.Some? ==> r.value in rs && r.value.id == id
    ensures r.None? <==> forall i :: 0 <= i < |rs| ==> rs[i].id != id
  {
    if rs == [] then None
    else if rs[0].id == id then Some(rs[0])
    else Lookup(rs[1..], id)
  }

  // ---------------------------------------------------------------------------
  // Properties of the specification functions

  lemma {:induction false} AllFreshSelected(rs: seq<Atm>, now: int)
    requires forall a :: a in rs ==> IsFresh(a, now)
    ensures FreshRecords(rs, now) == rs
  {
    if rs != [] {
      assert forall a :: a in rs[1..] ==> a in rs;
      AllFreshSelected(rs[1..], now);
      assert [rs[0]] + rs[1..] == rs;
    }
  }

  lemma {:induction false} NoneFreshSelected(rs: seq<Atm>, now: int)
    requires forall a :: a in rs ==> !IsFresh(a, now)
    ensures FreshRecords(rs, now) == []
  {
    if rs != [] {
      assert forall a :: a in rs[1..] ==> a in rs;
      NoneFreshSelected(rs[1..], now);
    }
  }

  /** With fetch times in table order, a row that is fresh makes every later
      row fresh, so a fresh first row means a hit selects the whole table. */
  lemma FirstFreshSelectsAll(rs: seq<Atm>, now: int)
    requires StampsOrdered(rs) && rs != [] && IsFresh(rs[0], now)
    ensures FreshRecords(rs, now) == rs
  {
    forall a | a in rs ensures IsFresh(a, now) {
      var j :| 0 <= j < |rs| && rs[j] == a;
      assert rs[0].fetchedAt <= rs[j].fetchedAt;
    }
    AllFreshSelected(rs, now);
  }

  /** With fetch times in table order, the rows a hit returns are a suffix of
      the table: the stale rows are exactly the earliest ones. */
  lemma {:induction false} FreshIsSuffix(rs: seq<Atm>, now: int)
    requires StampsOrdered(rs)
    ensures FreshRecords(rs, now) == rs[|rs| - |FreshRecords(rs, now)|..]
  {
    if rs != [] {
      if IsFresh(rs[0], now) {
        FirstFreshSelectsAll(rs, now);
      } else {
        var tail := rs[1..];
        assert StampsOrdered(tail) by {
          forall i, j | 0 <= i < j < |tail| ensures tail[i].fetchedAt <= tail[j].fetchedAt {
            assert tail[i] == rs[i + 1] && tail[j] == rs[j + 1];
          }
        }
        FreshIsSuffix(tail, now);
        assert FreshRecords(rs, now) == FreshRecords(tail, now);
        assert tail[|tail| - |FreshRecords(tail, now)|..] == rs[|rs| - |FreshRecords(rs, now)|..];
      }
    }
  }

  /** A request made just after the window of a batch's first rows but within
      that of its last ones is a hit that selects only part of the table. */
  lemma PartialHitExample(d: AtmData)
    ensures var rs := Refreshed([d, d], [10, 50]);
      FreshRecords(rs, FreshWindow + 25) == [rs[1]]
  {
    var rs := Refreshed([d, d], [10, 50]);
    assert !IsFresh(rs[0], FreshWindow + 25) && IsFresh(rs[1], FreshWindow + 25);
    assert rs[1..][1..] == [];
  }

  /** A refreshed table is the batch itself, with distinct ids 1..n, each row
      stamped with its own clock reading, fetch times in table order. */
  lemma RefreshedShape(batch: seq<AtmData>, stamps: seq<int>, now: int)
    requires |stamps| == |batch| && ClockReadings(now, stamps)
    ensures |Refreshed(batch, stamps)| == |batch|
    ensures IdsDistinct(Refreshed(batch, stamps)) && StampsOrdered(Refreshed(batch, stamps))
    ensures forall i :: 0 <= i < |batch| ==>
      var r := Refreshed(batch, stamps)[i];
      && r.id == i + 1 && r.fetchedAt == stamps[i] && now <= r.fetchedAt
      && AtmData(r.name, r.lat, r.lng, r.address, r.services) == batch[i]
  {
  }

  /** Inserting the next record of the batch extends the refreshed prefix by one row. */
  lemma RefreshedAppend(batch: seq<AtmData>, stamps: seq<int>, i: nat)
    requires |stamps| == |batch| && i < |batch|
    ensures Refreshed(batch[..i], stamps[..i]) + [Stamp(batch[i], i + 1, stamps[i])]
         == Refreshed(batch[..i + 1], stamps[..i + 1])
  {
  }

  /** A table refreshed after `refreshedAt` stays entirely fresh until the
      window has passed since `refreshedAt`... */
  lemma RefreshedStaysFresh(batch: seq<AtmData>, stamps: seq<int>, refreshedAt: int, later: int)
    requires |stamps| == |batch| && ClockReadings(refreshedAt, stamps)
    requires later <= refreshedAt + FreshWindow
    ensures FreshRecords(Refreshed(batch, stamps), later) == Refreshed(batch, stamps)
  {
    AllFreshSelected(Refreshed(batch, stamps), later);
  }

  /** ... and none of it is fresh once the window has passed since its last row. */
  lemma RefreshedExpires(batch: seq<AtmData>, stamps: seq<int>, later: int)
    requires |stamps| == |batch|
    requires forall i :: 0 <= i < |stamps| ==> later > stamps[i] + FreshWindow
    ensures FreshRecords(Refreshed(batch, stamps), later) == []
  {
    NoneFreshSelected(Refreshed(batch, stamps), later);
  }

  /** On a miss no row of the previous table survives the refresh. */
  lemma MissReplacesEveryRow(rs: seq<Atm>, batch: seq<AtmData>, stamps: seq<int>, now: int)
    requires |stamps| == |batch| && ClockReadings(now, stamps)
    requires FreshRecords(rs, now) == []
    ensures forall a :: a in rs ==> a !in Refreshed(batch, stamps)
  {
    forall a | a in rs ensures a !in Refreshed(batch, stamps) {
      assert !IsFresh(a, now);
    }
  }

  /** With distinct ids, looking up a row's id finds that very row. */
  lemma {:induction false} LookupFindsRow(rs: seq<Atm>, k: nat)
    requires IdsDistinct(rs)
    requires k < |rs|
    ensures Lookup(rs, rs[k].id) == Some(rs[k])
  {
    if k > 0 {
      assert rs[0].id != rs[k].id;
      assert IdsDistinct(rs[1..]) by {
        forall i, j | 0 <= i < j < |rs| - 1 ensures rs[1..][i].id != rs[1..][j].id {
          assert rs[1..][i] == rs[i + 1] && rs[1..][j] == rs[j + 1];
        }
      }
      LookupFindsRow(rs[1..], k - 1);
      assert rs[1..][k - 1] == rs[k];
    }
  }

  /** After a refresh, the detail lookup returns exactly the generated record
      for an id the refresh issued, and not-found for every other id. */
  lemma LookupRefreshed(batch: seq<AtmData>, stamps: seq<int>, id: int)
    requires |stamps| == |batch|
    ensures Lookup(Refreshed(batch, stamps), id) ==
      if 1 <= id <= |batch| then Some(Stamp(batch[id - 1], id, stamps[id - 1])) else None
  {
    var rs := Refreshed(batch, stamps);
    assert IdsDistinct(rs);
    if 1 <= id <= |batch| {
      LookupFindsRow(rs, id - 1);
    }
  }

  // ---------------------------------------------------------------------------
  // The table and the two endpoints

  class AtmTable {
    /** The rows, in insertion order. */
    var records: seq<Atm>
    /** The id the next inserted row receives. */
    var nextId: int

    ghost predicate Valid()
      reads this
    {
      && nextId >= 1
      && IdsDistinct(records)
      && StampsOrdered(records)
      && forall i :: 0 <= i < |records| ==> 1 <= records[i].id < nextId
    }

    constructor ()
      ensures Valid() && records == [] && nextId == 1
    {
      records, nextId := [], 1;
    }

    /** The miss path's write: delete every row, then insert the batch one row
        at a time, each given the next id and stamped with its own clock
        reading, taken no earlier than `now`. */
    method ReplaceAll(batch: seq<AtmData>, stamps: seq<int>, ghost now: int)
      requires |stamps| == |batch| && ClockReadings(now, stamps)
      modifies this
      ensures records == Refreshed(batch, stamps) && nextId == |batch| + 1
      ensures Valid()
    {
      records, nextId := [], 1;
      for i := 0 to |batch|
        invariant records == Refreshed(batch[..i], stamps[..i])
        invariant nextId == i + 1
      {
        RefreshedAppend(batch, stamps, i);
        records := records + [Stamp(batch[i], nextId, stamps[i])];
        nextId := nextId + 1;
      }
      assert batch[..|batch|] == batch && stamps[..|stamps|] == stamps;
      RefreshedShape(batch, stamps, now);
    }

    /** The list endpoint. `now` is the clock reading behind the threshold;
        `count` is the batch size drawn in 5..15, `draws` the generator's
        random choices and `stamps` the clock readings taken while inserting;
        the last three are used only on a miss. */
    method ListNear(now: int, count: int, draws: seq<Draw>, stamps: seq<int>) returns (atms: seq<Atm>)
      requires Valid()
      requires 5 <= count <= 15 && |draws| == count
      requires forall i :: 0 <= i < |draws| ==> ValidDraw(draws[i])
      requires |stamps| == count && ClockReadings(now, stamps)
      modifies this
      ensures Valid()
      // hit: the fresh rows, which are the latest rows of the table; the table unchanged
      ensures FreshRecords(old(records), now) != [] ==>
        && atms == FreshRecords(old(records), now)
        && atms == old(records)[|old(records)| - |atms|..]
        && (old(records) != [] && IsFresh(old(records)[0], now) ==> atms == old(records))
        && records == old(records) && nextId == old(nextId)
      // miss: the table is exactly the new batch and is returned whole
      ensures FreshRecords(old(records), now) == [] ==>
        && records == Refreshed(MockAtms(draws), stamps) && nextId == count + 1
        && atms == records && |atms| == count
        && (forall i :: 0 <= i < |atms| ==> atms[i].fetchedAt == stamps[i] && IsFresh(atms[i], now))
        && (forall a :: a in old(records) ==> a !in records)
    {
      var freshRows := FreshRecords(records, now);
      if freshRows == [] {
        var batch := GenerateMockAtms(count, draws);
        if batch != [] {
          MissReplacesEveryRow(records, batch, stamps, now);
          ReplaceAll(batch, stamps, now);
        }
        atms := records;
      } else {
        FreshIsSuffix(records, now);
        if IsFresh(records[0], now) {
          FirstFreshSelectsAll(records, now);
        }
        atms := freshRows;
      }
    }

    /** The detail endpoint: the row with this id, or not-found. */
    method GetDetail(id: int) returns (r: Option<Atm>)
      requires Valid()
      ensures r.Some? <==> exists i :: 0 <= i < |records| && records[i].id == id
      ensures forall i :: 0 <= i < |records| && records[i].id == id ==> r == Some(records[i])
    {
      r := Lookup(records, id);
      if r.Some? {
        forall i | 0 <= i < |records| && records[i].id == id ensures r == Some(records[i]) {
          LookupFindsRow(records, i);
        }
      }
    }
  }

  /** Two list requests, the second no later than the window after a first that
      missed: the second is a hit that returns the same rows and changes nothing. */
  method RepeatWithinWindow(table: AtmTable, t1: int, t2: int,
                            count1: int, draws1: seq<Draw>, stamps1: seq<int>,
                            count2: int, draws2: seq<Draw>, stamps2: seq<int>)
      returns (first: seq<Atm>, second: seq<Atm>)
    requires table.Valid() && FreshRecords(table.records, t1) == []
    requires t2 <= t1 + FreshWindow
    requires 5 <= count1 <= 15 && |draws1| == count1
    requires forall i :: 0 <= i < |draws1| ==> ValidDraw(draws1[i])
    requires |stamps1| == count1 && ClockReadings(t1, stamps1)
    requires 5 <= count2 <= 15 && |draws2| == count2
    requires forall i :: 0 <= i < |draws2| ==> ValidDraw(draws2[i])
    requires |stamps2| == count2 && ClockReadings(t2, stamps2)
    modifies table
    ensures second == first && first == table.records
    ensures table.records == Refreshed(MockAtms(draws1), stamps1)
  {
    first := table.ListNear(t1, count1, draws1, stamps1);
    RefreshedStaysFresh(MockAtms(draws1), stamps1, t1, t2);
    second := table.ListNear(t2, count2, draws2, stamps2);
  }
}
