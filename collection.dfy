/** The identity-keyed ordered collection a live table mirrors its records
    into (ObservableConcurrentCollection<T>): a sequence of records, a
    first-match lookup by `Id`, and the two batch mutations, each returning
    the change descriptor it would raise, or none when nothing changed. */
module ObservableCollection {
  import opened Common
  import opened Records

  /** The change descriptor of one batch mutation. */
  datatype Change =
    | Added(items: seq<Record>, index: nat)
    | Removed(items: seq<Record>)

  /** A collection after a batch mutation, with the descriptor it returned. */
  datatype Edit = Edit(coll: seq<Record>, change: Option<Change>)

  /** The identities of a collection, position by position. */
  function Ids(c: seq<Record>): seq<string>
  {
    seq(|c|, i requires 0 <= i < |c| => c[i].id)
  }

  lemma IdsCons(c: seq<Record>)
    requires c != []
    ensures Ids(c) == [c[0].id] + Ids(c[1..])
  {
  }

  lemma IdsConcat(a: seq<Record>, b: seq<Record>)
    ensures Ids(a + b) == Ids(a) + Ids(b)
  {
  }

  /** The identities of a batch of records, as a set. */
  function IdSet(rs: seq<Record>): set<string>
  {
    set r | r in rs :: r.id
  }

  /** `FirstOrDefault(i => i.Id == id)`: the position of the first record with
      that identity, if there is one. */
  function FirstIndex(c: seq<Record>, id: string): (r: Option<nat>)
    ensures r.Some? ==> r.value < |c| && c[r.value].id == id
    ensures r.Some? ==> forall j :: 0 <= j < r.value ==> c[j].id != id
    ensures r.None? <==> id !in Ids(c)
  {
    if c == [] then None
    else
      IdsCons(c);
      if c[0].id == id then Some(0)
    else match FirstIndex(c[1..], id)
      case None => None
      case Some(k) => Some(k + 1)
  }

  /** The records of `c` whose identity is not in `ids`, in their order. */
  function Without(c: seq<Record>, ids: set<string>): (r: seq<Record>)
    ensures |r| <= |c|
    ensures forall x :: x in r <==> x in c && x.id !in ids
    ensures forall id :: id in Ids(r) <==> id in Ids(c) && id !in ids
  {
    if c == [] then []
    else
      var rest := Without(c[1..], ids);
      IdsCons(c);
      IdsConcat([c[0]], rest);
      assert Ids([c[0]]) == [c[0].id];
      if c[0].id in ids then rest else [c[0]] + rest
  }

  /** Filtering keeps the order: the survivors of a concatenation are the
      survivors of its parts, in sequence. */
  lemma {:induction false} WithoutConcat(p: seq<Record>, q: seq<Record>, ids: set<string>)
    ensures Without(p + q, ids) == Without(p, ids) + Without(q, ids)
    decreases |p|
  {
    if p != [] {
      assert (p + q)[0] == p[0] && (p + q)[1..] == p[1..] + q;
      WithoutConcat(p[1..], q, ids);
      var head := if p[0].id in ids then [] else [p[0]];
      assert Without(p + q, ids) == head + Without(p[1..] + q, ids);
      assert Without(p, ids) == head + Without(p[1..], ids);
      ConcatAssoc(head, Without(p[1..], ids), Without(q, ids));
    } else {
      assert p + q == q;
    }
  }

  /** A single record survives exactly when its identity is not removed. */
  lemma WithoutSingle(x: Record, ids: set<string>)
    ensures Without([x], ids) == if x.id in ids then [] else [x]
  {
    var c := [x];
    assert c[0] == x && c[1..] == [];
    assert Without(c[1..], ids) == [];
  }

  /** The records of `c` whose identity is in `ids`, in their order. */
  function Matching(c: seq<Record>, ids: set<string>): (r: seq<Record>)
    ensures |r| <= |c|
    ensures forall x :: x in r <==> x in c && x.id in ids
    ensures r == [] <==> forall id :: id in ids ==> id !in Ids(c)
  {
    if c == [] then []
    else
      var rest := Matching(c[1..], ids);
      IdsCons(c);
      if c[0].id in ids then [c[0]] + rest else rest
  }

  /** `AddRange(items)`: appends the whole batch; an empty batch changes
      nothing and returns no descriptor. */
  function AddRange(c: seq<Record>, items: seq<Record>): (e: Edit)
    ensures e.coll == c + items
    ensures e.change.Some? <==> items != []
    ensures e.change.Some? ==> e.change.value == Added(items, |c|)
  {
    Edit(c + items, if items == [] then None else Some(Added(items, |c|)))
  }

  /** `RemoveRange(items)`: removes every record whose identity is that of
      some item of the batch, keeping the order of the rest; it returns a
      descriptor listing the removed records exactly when one matched. */
  function RemoveRange(c: seq<Record>, items: seq<Record>): (e: Edit)
    ensures forall id :: id in Ids(e.coll) <==> id in Ids(c) && id !in IdSet(items)
    ensures e.change.Some? <==> exists r :: r in items && r.id in Ids(c)
    ensures e.change.Some? ==> e.change.value == Removed(Matching(c, IdSet(items)))
    ensures e.coll == Without(c, IdSet(items))
  {
    var gone := Matching(c, IdSet(items));
    Edit(Without(c, IdSet(items)), if gone == [] then None else Some(Removed(gone)))
  }
}
