/** What the INSERT of a staged batch delivers (`build_direct_s3_insert_sql`, app/clickhouse_oss.py:461-545): the changes of
    each object, labelled with the identity, digest and revision of the part they were asked for. */
module StageDelivery {
  import opened Select
  import opened PartTable
  import opened StageProtocol

  /** One change in an object, and the partition it belongs to. */
  datatype Change = Change(day: string, event: int)

  /** What the server reads in the object of an identity; an object holds changes of one day. */
  type Objects = o: string -> seq<Change> | forall id: string, c, d | c in o(id) && d in o(id) :: c.day == d.day
    witness _ => []

  /** Revisions are written as unsigned numbers. */
  function Label(p: Part, c: Change): Row { Row(p.identity, p.sha, if p.revision > 0 then p.revision else 0, c.day, c.event) }

  function Labelled(p: Part, changes: seq<Change>): Table {
    if changes == [] then [] else [Label(p, changes[0])] + Labelled(p, changes[1..])
  }

  function Delivered(o: Objects, parts: seq<Part>): Table {
    if parts == [] then [] else Labelled(parts[0], o(parts[0].identity)) + Delivered(o, parts[1..])
  }

  /** The object of the part has as many changes as the metadata says. */
  predicate Whole(o: Objects, p: Part) { |o(p.identity)| == p.rowCount && p.revision >= 0 }

  /** Change by change: the object's day and event, under the identity, digest and revision of the part. */
  lemma {:induction false} LabelledMeans(p: Part, changes: seq<Change>)
    ensures |Labelled(p, changes)| == |changes|
    ensures forall i | 0 <= i < |changes| ::
              var r := Labelled(p, changes)[i];
              && r.day == changes[i].day && r.event == changes[i].event
              && r.key == p.identity && r.sha == p.sha && (p.revision >= 0 ==> r.revision == p.revision)
    ensures forall r | r in Labelled(p, changes) :: exists c | c in changes :: r == Label(p, c)
  {
    if changes != [] {
      LabelledMeans(p, changes[1..]);
      forall r | r in Labelled(p, changes) ensures exists c | c in changes :: r == Label(p, c) {
        if r != Label(p, changes[0]) {
          var c :| c in changes[1..] && r == Label(p, c);
          assert c in changes;
        } else {
          assert changes[0] in changes;
        }
      }
    }
  }

  lemma {:induction false} DeliveredMembers(o: Objects, parts: seq<Part>)
    ensures forall r | r in Delivered(o, parts) :: exists p | p in parts :: r in Labelled(p, o(p.identity))
  {
    if parts != [] {
      DeliveredMembers(o, parts[1..]);
      forall r | r in Delivered(o, parts) ensures exists p | p in parts :: r in Labelled(p, o(p.identity)) {
        if r in Labelled(parts[0], o(parts[0].identity)) {
          assert parts[0] in parts;
        } else {
          assert r in Delivered(o, parts[1..]);
          var p :| p in parts[1..] && r in Labelled(p, o(p.identity));
          assert p in parts;
        }
      }
    }
  }

  /** Every row delivered belongs to a part of the batch, and those of one part share a day. */
  lemma DeliveredRows(o: Objects, parts: seq<Part>)
    requires Distinct(parts)
    ensures OnlyParts(Delivered(o, parts), Ids(parts)) && OneDay(Delivered(o, parts))
  {
    DeliveredMembers(o, parts);
    forall r | r in Delivered(o, parts) ensures r.key in Ids(parts) {
      var p :| p in parts && r in Labelled(p, o(p.identity));
      LabelledMeans(p, o(p.identity));
    }
    forall r, q | r in Delivered(o, parts) && q in Delivered(o, parts) && r.key == q.key ensures r.day == q.day {
      var p :| p in parts && r in Labelled(p, o(p.identity));
      var p' :| p' in parts && q in Labelled(p', o(p'.identity));
      LabelledMeans(p, o(p.identity));
      LabelledMeans(p', o(p'.identity));
      DistinctKeys(parts, p, p');
    }
  }

  /** The rows delivered for a part are those of its object. */
  lemma {:induction false} OfDelivered(o: Objects, parts: seq<Part>, p: Part)
    requires Distinct(parts) && p in parts
    ensures Of(Delivered(o, parts), p.identity) == Labelled(p, o(p.identity))
  {
    var first, rest := parts[0], parts[1..];
    var isKey := (r: Row) => r.key == p.identity;
    OfConcat(Labelled(first, o(first.identity)), Delivered(o, rest), p.identity);
    LabelledMeans(first, o(first.identity));
    if p == first {
      KeepAll(Labelled(p, o(p.identity)), isKey);
      DeliveredRows(o, rest);
      forall r | r in Delivered(o, rest) ensures !isKey(r) {
        var q := PartOf(rest, r.key);
        var j :| 0 <= j < |rest| && rest[j] == q;
        assert parts[j + 1] == q;
      }
      KeepNone(Delivered(o, rest), isKey);
    } else {
      KeepNone(Labelled(first, o(first.identity)), isKey);
      OfDelivered(o, rest, p);
    }
  }

  // ---- rows in any order ----

  lemma {:induction false} KeepCounts<T>(t: seq<T>, p: T -> bool, x: T)
    ensures multiset(Keep(t, p))[x] == if p(x) then multiset(t)[x] else 0
  {
    if t != [] {
      KeepCounts(t[1..], p, x);
      assert t == [t[0]] + t[1..];
      assert Keep(t, p) == (if p(t[0]) then [t[0]] else []) + Keep(t[1..], p);
    }
  }

  lemma OfReordered(t: Table, u: Table, key: string)
    requires multiset(t) == multiset(u)
    ensures multiset(Of(t, key)) == multiset(Of(u, key))
    ensures |Of(t, key)| == |Of(u, key)| && forall r :: r in Of(t, key) <==> r in Of(u, key)
  {
    var isKey := (r: Row) => r.key == key;
    forall r ensures multiset(Of(t, key))[r] == multiset(Of(u, key))[r] {
      KeepCounts(t, isKey, r);
      KeepCounts(u, isKey, r);
    }
    SameMultiset(Of(t, key), Of(u, key));
  }

  lemma SameMultiset<T>(a: seq<T>, b: seq<T>)
    requires multiset(a) == multiset(b)
    ensures |a| == |b| && forall x :: x in a <==> x in b
  {
    assert |multiset(a)| == |a| && |multiset(b)| == |b|;
    forall x ensures x in a <==> x in b {
      assert x in a <==> x in multiset(a);
      assert x in b <==> x in multiset(b);
    }
  }

  lemma SomeRowsOfOneDay(got: Table, all: Table)
    requires multiset(got) <= multiset(all) && OneDay(all)
    ensures OneDay(got)
  {
    forall r | r in got ensures r in all {
      assert r in multiset(got);
    }
  }

  // ---- what the verification of the INSERT finds ----

  /** The table holds exactly what was delivered for the batch, in any order. */
  ghost predicate Landed(o: Objects, parts: seq<Part>, t: Table) { multiset(t) == multiset(Delivered(o, parts)) }

  lemma LandedPart(o: Objects, parts: seq<Part>, t: Table, p: Part)
    requires Distinct(parts) && p in parts && p.rowCount > 0 && Landed(o, parts, t)
    ensures multiset(Of(t, p.identity)) == multiset(Labelled(p, o(p.identity)))
    ensures Exact(p, t) <==> Whole(o, p)
  {
    OfDelivered(o, parts, p);
    OfReordered(t, Delivered(o, parts), p.identity);
    LabelledMeans(p, o(p.identity));
    var rows := Of(t, p.identity);
    if rows != [] {
      assert rows[0] in rows && rows[0] in Labelled(p, o(p.identity));
    }
  }

  /** The verification passes exactly when every object is whole. */
  lemma VerificationDecides(o: Objects, parts: seq<Part>, t: Table)
    requires ValidBatch(parts) && Landed(o, parts, t)
    ensures SingleTableExact(parts, t) <==> forall p | p in parts :: Whole(o, p)
  {
    forall p | p in parts ensures Matches(p, StateOf(t, p.identity)) <==> Whole(o, p) {
      LandedPart(o, parts, t, p);
      MatchesIffExact(p, t);
    }
    if forall p | p in parts :: Whole(o, p) {
      SameMultiset(t, Delivered(o, parts));
      DeliveredRows(o, parts);
      forall id | id in Ids(parts) ensures id in Keys(t) {
        var p := PartOf(parts, id);
        LandedPart(o, parts, t, p);
        OfAbsent(t, id);
      }
      assert Keys(t) == Ids(parts);
    }
  }

  // ---- what a load without failures loads ----

  /** A part that was nowhere is loaded if and only if its object is whole, and then with the object's changes. */
  ghost predicate LoadsWhole(o: Objects, s: Store, u: Store, parts: seq<Part>) {
    forall p | p in parts && p.rowCount > 0 && Unloaded(p, s) ::
      && (InFinal(p, u) <==> Whole(o, p))
      && (InFinal(p, u) ==> multiset(Of(u.finalTime, p.identity)) == multiset(Labelled(p, o(p.identity))))
  }

  /** A batch that is loaded with the changes of its objects. */
  ghost predicate LoadedWhole(o: Objects, u: Store, parts: seq<Part>) {
    forall p | p in parts ::
      Whole(o, p) && InFinal(p, u) && multiset(Of(u.finalTime, p.identity)) == multiset(Labelled(p, o(p.identity)))
  }

  /** What was staged is what is loaded. */
  lemma PublishedWhole(o: Objects, s: Store, u: Store, parts: seq<Part>)
    requires Distinct(parts) && (forall p | p in parts :: p.rowCount > 0 && Unloaded(p, s) && Loaded(p, u))
    requires Landed(o, parts, s.stageName) && SameNames(s, u, parts) && u.stageName == []
    ensures LoadedWhole(o, u, parts)
  {
    assert u.finalName + [] == u.finalName;
    forall p | p in parts
      ensures Whole(o, p) && multiset(Of(u.finalTime, p.identity)) == multiset(Labelled(p, o(p.identity)))
    {
      OfConcat(s.finalName, s.stageName, p.identity);
      assert [] + Of(s.stageName, p.identity) == Of(s.stageName, p.identity);
      LandedPart(o, parts, s.stageName, p);
      assert Of(u.finalName, p.identity) == Of(s.stageName, p.identity);
    }
  }

  /** Two loads of separate parts, one after the other. */
  lemma WholeInTwo(o: Objects, s: Store, u: Store, v: Store, a: seq<Part>, b: seq<Part>)
    requires forall p, q | p in a && q in b :: p.identity != q.identity
    requires LoadsWhole(o, s, u, a) && FinalsGrow(s.Final(), u.Final(), Ids(a))
    requires LoadsWhole(o, u, v, b) && FinalsGrow(u.Final(), v.Final(), Ids(b))
    ensures LoadsWhole(o, s, v, a + b)
  {
    forall p | p in a
      ensures InFinal(p, u) <==> InFinal(p, v)
      ensures Of(u.finalTime, p.identity) == Of(v.finalTime, p.identity)
    {
      assert p.identity !in Ids(b);
      InFinalPersists(p, u, v, Ids(b));
    }
    forall p | p in b ensures Unloaded(p, s) <==> Unloaded(p, u) {
      assert p.identity !in Ids(a);
      InFinalPersists(p, s, u, Ids(a));
    }
  }

  lemma LoadedIsWhole(o: Objects, s: Store, u: Store, parts: seq<Part>)
    requires LoadedWhole(o, u, parts)
    ensures LoadsWhole(o, s, u, parts)
  {
  }

  /** A part that is not loaded and whose object is not the part. */
  lemma NotLoadedIsWhole(o: Objects, s: Store, u: Store, p: Part)
    requires Unloaded(p, s) && u.Final() == s.Final() && !Whole(o, p)
    ensures LoadsWhole(o, s, u, [p])
  {
  }

  /** What holds from a discarded attempt on holds from before it. */
  lemma WholeFromStart(o: Objects, s: Store, u: Store, v: Store, parts: seq<Part>)
    requires LoadsWhole(o, u, v, parts) && forall p | p in parts :: Unloaded(p, u)
    ensures LoadsWhole(o, s, v, parts)
  {
  }

  /** Parts that are complete already have no say. */
  lemma WholeOfMissing(o: Objects, s: Store, u: Store, v: Store, parts: seq<Part>)
    requires Distinct(parts) && u.Final() == s.Final()
    requires MissingParts(parts, s) == [] || LoadsWhole(o, u, v, MissingParts(parts, s))
    ensures LoadsWhole(o, s, v, parts)
  {
    SortedParts(parts, s);
    forall p | p in parts && p.rowCount > 0 && Unloaded(p, s) ensures p in MissingParts(parts, s) && Unloaded(p, u) {
    }
  }

  lemma WholeBatchLoads(o: Objects, s: Store, u: Store, parts: seq<Part>, ready: nat, failed: nat)
    requires LoadsWhole(o, s, u, parts) && LoadDone(s, u, parts, ready, failed)
    requires forall p | p in parts :: p.rowCount > 0 && Unloaded(p, s) && Whole(o, p)
    ensures ready == |parts| && failed == 0
  {
    KeepAll(parts, (p: Part) => InFinal(p, u));
  }
}
