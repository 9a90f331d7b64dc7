/** One entity of the record table: its rows in the order of their record ids. */
module KeyedTable {
  import opened Options
  import opened TextOrder

  datatype Entry<R> = Entry(id: string, record: R)

  type Rows<R> = seq<Entry<R>>

  ghost predicate Ordered<R>(t: Rows<R>) {
    forall i, j :: 0 <= i < j < |t| ==> Less(t[i].id, t[j].id)
  }

  /** Insert, or replace under the same id. */
  function Put<R>(t: Rows<R>, id: string, r: R): Rows<R> {
    if t == [] || Less(id, t[0].id) then [Entry(id, r)] + t
    else if t[0].id == id then [Entry(id, r)] + t[1..]
    else [t[0]] + Put(t[1..], id, r)
  }

  function Drop<R>(t: Rows<R>, id: string): Rows<R> {
    if t == [] then []
    else if t[0].id == id then t[1..]
    else [t[0]] + Drop(t[1..], id)
  }

  function Find<R>(t: Rows<R>, id: string): Option<R> {
    if t == [] then None
    else if t[0].id == id then Some(t[0].record)
    else Find(t[1..], id)
  }

  /** The first id is below all others. */
  lemma HeadIsLeast<R(!new)>(t: Rows<R>)
    requires Ordered(t) && t != []
    ensures t == [t[0]] + t[1..] && Ordered(t[1..])
    ensures forall e :: e in t[1..] ==> Less(t[0].id, e.id) && e.id != t[0].id
  {
    hide Less;
    forall e | e in t[1..] ensures Less(t[0].id, e.id) && e.id != t[0].id {
      var j :| 0 <= j < |t[1..]| && t[1..][j] == e;
      assert t[j + 1] == e;
      LessAsymmetric(t[0].id, e.id);
    }
  }

  lemma HeadFirst<R(!new)>(e: Entry<R>, t: Rows<R>)
    requires Ordered(t) && forall x :: x in t ==> Less(e.id, x.id)
    ensures Ordered([e] + t)
  {
    hide Less;
    var all := [e] + t;
    forall i, j | 0 <= i < j < |all| ensures Less(all[i].id, all[j].id) {
      assert all[j] == t[j - 1] && t[j - 1] in t;
    }
  }

  lemma {:induction false} PutKeepsOrder<R(!new)>(t: Rows<R>, id: string, r: R)
    requires Ordered(t)
    ensures Ordered(Put(t, id, r))
    ensures forall e :: e in Put(t, id, r) <==> e == Entry(id, r) || (e in t && e.id != id)
  {
    hide Less, Ordered;
    if t == [] {
      HeadFirst(Entry(id, r), t);
    } else {
      HeadIsLeast(t);
      LessTotal(id, t[0].id);
      if Less(id, t[0].id) {
        LessAsymmetric(id, t[0].id);
        forall e | e in t[1..] ensures Less(id, e.id) && e.id != id {
          LessTransitive(id, t[0].id, e.id);
          LessAsymmetric(id, e.id);
        }
        HeadFirst(Entry(id, r), t);
      } else if t[0].id == id {
        HeadFirst(Entry(id, r), t[1..]);
      } else {
        PutKeepsOrder(t[1..], id, r);
        var rest := Put(t[1..], id, r);
        forall x | x in rest ensures Less(t[0].id, x.id) {
          assert x == Entry(id, r) || (x in t[1..] && x.id != id);
        }
        HeadFirst(t[0], rest);
      }
    }
  }

  lemma {:induction false} DropKeepsOrder<R(!new)>(t: Rows<R>, id: string)
    requires Ordered(t)
    ensures Ordered(Drop(t, id))
    ensures forall e :: e in Drop(t, id) <==> e in t && e.id != id
  {
    hide Less, Ordered;
    if t != [] {
      HeadIsLeast(t);
      if t[0].id != id {
        DropKeepsOrder(t[1..], id);
        var rest := Drop(t[1..], id);
        assert forall x :: x in rest ==> x in t[1..];
        HeadFirst(t[0], rest);
      }
    }
  }

  lemma {:induction false} FindIff<R(!new)>(t: Rows<R>, id: string, r: R)
    requires Ordered(t)
    ensures Find(t, id) == Some(r) <==> Entry(id, r) in t
  {
    if t != [] {
      assert t == [t[0]] + t[1..];
      FindIff(t[1..], id, r);
      if Entry(id, r) in t[1..] {
        LessIrreflexive(id);
      }
    }
  }

  lemma {:induction false} FindSome<R(!new)>(t: Rows<R>, id: string)
    ensures Find(t, id).Some? ==> Entry(id, Find(t, id).value) in t
    ensures Find(t, id).None? ==> forall e :: e in t ==> e.id != id
  {
    if t != [] {
      assert t == [t[0]] + t[1..];
      FindSome(t[1..], id);
    }
  }

  /** Two rows of one table under the same id are the same row. */
  lemma OneRowPerId<R(!new)>(t: Rows<R>, d: Entry<R>, e: Entry<R>)
    requires Ordered(t) && d in t && e in t && d.id == e.id
    ensures d == e
  {
    var i :| 0 <= i < |t| && t[i] == d;
    var j :| 0 <= j < |t| && t[j] == e;
    LessIrreflexive(d.id);
  }
}
