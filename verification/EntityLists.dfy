/** The three lists of a resource branch: intrusive, doubly linked, with every entity in exactly one. */
module EntityLists {
  import opened Options

  type Comparator = (int, int) -> int

  class Entity {
    var child: Entity?    // next in the list
    var father: Entity?   // previous in the list
    var branch: Root?     // the root of the list the entity is in
    const value: int      // what comparators look at

    constructor (value: int)
      ensures this.value == value
    {
      this.value := value;
      child, father, branch := null, null, null;
    }
  }

  /** Where a list starts. */
  class Root {
    var first: Entity?
    ghost var s: seq<Entity>   // what the list holds

    ghost predicate Valid()
      reads this, s
    {
      Linked(first, s, this)
    }

    constructor ()
      ensures Valid() && s == []
    {
      first, s := null, [];
    }
  }

  // ---------- What the links of a list of entities say ----------

  ghost function Fathers(s: seq<Entity>): (r: seq<Entity?>)
    reads s
    ensures |r| == |s| && forall i :: 0 <= i < |s| ==> r[i] == s[i].father
  {
    seq(|s|, i requires 0 <= i < |s| reads s => s[i].father)
  }

  ghost function Children(s: seq<Entity>): (r: seq<Entity?>)
    reads s
    ensures |r| == |s| && forall i :: 0 <= i < |s| ==> r[i] == s[i].child
  {
    seq(|s|, i requires 0 <= i < |s| reads s => s[i].child)
  }

  ghost predicate AllIn(s: seq<Entity>, p: Root)
    reads s
  {
    forall e :: e in s ==> e.branch == p
  }

  function Before(s: seq<Entity>): (r: seq<Entity?>)
    ensures |r| == |s|
  {
    seq(|s|, i requires 0 <= i < |s| => if i == 0 then null else s[i - 1])
  }

  function After(s: seq<Entity>): (r: seq<Entity?>)
    ensures |r| == |s|
  {
    seq(|s|, i requires 0 <= i < |s| => if i + 1 < |s| then s[i + 1] else null)
  }

  predicate Distinct(s: seq<Entity>) {
    forall i, j :: 0 <= i < j < |s| ==> s[i] != s[j]
  }

  /** The links of a list of entities, possibly in mid-update. */
  ghost predicate Links(s: seq<Entity>, p: Root, fathers: seq<Entity?>, children: seq<Entity?>)
    reads s
  {
    Distinct(s) && AllIn(s, p) && Fathers(s) == fathers && Children(s) == children
  }

  /** The chain from `head` visits exactly these entities in this order, and `father` undoes `child`. */
  ghost predicate Linked(head: Entity?, s: seq<Entity>, p: Root)
    reads s
  {
    head == (if s == [] then null else s[0]) && Links(s, p, Before(s), After(s))
  }

  method SetFather(e: Entity, v: Entity?, ghost s: seq<Entity>, ghost p: Root, ghost k: nat,
                   ghost fathers: seq<Entity?>, ghost children: seq<Entity?>)
    requires Links(s, p, fathers, children) && k < |s| && s[k] == e
    modifies e`father
    ensures Links(s, p, fathers[k := v], children)
  {
    e.father := v;
  }

  method SetChild(e: Entity, v: Entity?, ghost s: seq<Entity>, ghost p: Root, ghost k: nat,
                  ghost fathers: seq<Entity?>, ghost children: seq<Entity?>)
    requires Links(s, p, fathers, children) && k < |s| && s[k] == e
    modifies e`child
    ensures Links(s, p, fathers, children[k := v])
  {
    e.child := v;
  }

  // ---------- Adding ----------

  function InsertedAt<T>(s: seq<T>, k: nat, e: T): seq<T>
    requires k <= |s|
  {
    s[..k] + [e] + s[k..]
  }

  /** The first position whose entity the comparator puts after e; the end if there is none or no comparator. */
  function Spot(s: seq<Entity>, e: Entity, compare: Option<Comparator>): (k: nat)
    ensures k <= |s|
  {
    if s == [] then 0
    else if compare.Some? && compare.value(e.value, s[0].value) == 1 then 0
    else 1 + Spot(s[1..], e, compare)
  }

  function Inserted(s: seq<Entity>, e: Entity, compare: Option<Comparator>): seq<Entity> {
    InsertedAt(s, Spot(s, e, compare), e)
  }

  predicate Passed(s: seq<Entity>, e: Entity, compare: Option<Comparator>, k: nat)
    requires k <= |s|
  {
    forall j :: 0 <= j < k ==> compare.None? || compare.value(e.value, s[j].value) != 1
  }

  lemma {:induction false} SpotIs(s: seq<Entity>, e: Entity, compare: Option<Comparator>, k: nat)
    requires k <= |s| && Passed(s, e, compare, k)
    requires k < |s| ==> compare.Some? && compare.value(e.value, s[k].value) == 1
    ensures Spot(s, e, compare) == k
  {
    if k > 0 {
      SpotIs(s[1..], e, compare, k - 1);
    }
  }

  lemma DistinctInserted(s: seq<Entity>, k: nat, e: Entity, t: seq<Entity>)
    requires Distinct(s) && e !in s && k <= |s| && t == InsertedAt(s, k, e)
    ensures Distinct(t)
  {
  }

  lemma FathersInserted(s: seq<Entity>, k: nat, e: Entity, t: seq<Entity>)
    requires k < |s| && t == InsertedAt(s, k, e)
    requires Fathers(s) == Before(s)[k := e] && e.father == Before(s)[k]
    ensures Fathers(t) == Before(t)
  {
  }

  /** The children once e is named by the entity before the k-th one. */
  function AfterNaming(s: seq<Entity>, k: nat, e: Entity): (r: seq<Entity?>)
    requires k < |s|
    ensures |r| == |s|
  {
    if k == 0 then After(s) else After(s)[k - 1 := e]
  }

  lemma ChildrenInserted(s: seq<Entity>, k: nat, e: Entity, t: seq<Entity>)
    requires k < |s| && t == InsertedAt(s, k, e) && e.child == s[k]
    requires Children(s) == AfterNaming(s, k, e)
    ensures Children(t) == After(t)
  {
  }

  lemma HeadInserted(s: seq<Entity>, k: nat, e: Entity, p: Root, t: seq<Entity>)
    requires k <= |s| && AllIn(s, p) && e.branch == p && t == InsertedAt(s, k, e)
    ensures t != [] && AllIn(t, p)
    ensures t[0] == if k == 0 then e else s[0]
  {
  }

  lemma AddedIsLinked(head: Entity?, s: seq<Entity>, p: Root, k: nat, added: Entity, t: seq<Entity>)
    requires k < |s| && added !in s && added.branch == p && head == s[0]
    requires Links(s, p, Before(s)[k := added], AfterNaming(s, k, added))
    requires added.father == (if k == 0 then null else s[k - 1]) && added.child == s[k]
    requires t == InsertedAt(s, k, added)
    ensures Linked(if k == 0 then added else head, t, p)
  {
    HeadInserted(s, k, added, p, t);
    DistinctInserted(s, k, added, t);
    FathersInserted(s, k, added, t);
    ChildrenInserted(s, k, added, t);
  }

  lemma FatherIs(head: Entity?, s: seq<Entity>, p: Root, k: nat)
    requires Linked(head, s, p) && k < |s|
    ensures s[k].father == if k == 0 then null else s[k - 1]
  {
    assert s[k].father == Before(s)[k];
  }

  lemma ChildIs(head: Entity?, s: seq<Entity>, p: Root, k: nat)
    requires Linked(head, s, p) && k < |s|
    ensures s[k].child == if k + 1 < |s| then s[k + 1] else null
  {
    assert s[k].child == After(s)[k];
  }

  /** Links `added` in front of the k-th entity of the chain. */
  method AddBeforeEnt(added: Entity, other: Entity, ghost head: Entity?, ghost s: seq<Entity>, ghost p: Root,
                      ghost k: nat)
    requires Linked(head, s, p) && added !in s && added.branch == p && k < |s| && other == s[k]
    modifies s, added
    ensures Linked(if k == 0 then added else head, InsertedAt(s, k, added), p)
  {
    ghost var t := InsertedAt(s, k, added);
    NameNeighbours(added, other, head, s, p, k);
    LinkAround(added, other, s, p, k);
    AddedIsLinked(head, s, p, k, added, t);
  }

  /** Makes `added` name its neighbours. */
  method NameNeighbours(added: Entity, other: Entity, ghost head: Entity?, ghost s: seq<Entity>, ghost p: Root,
                        ghost k: nat)
    requires Linked(head, s, p) && added !in s && k < |s| && other == s[k]
    modifies added`child, added`father
    ensures Links(s, p, Before(s), After(s))
    ensures added.father == other.father == (if k == 0 then null else s[k - 1]) && added.child == s[k]
  {
    FatherIs(head, s, p, k);
    added.child := other;
    added.father := other.father;
    LinkedFrame(head, s, p);
  }

  /** Makes the neighbours of `added` name it. */
  method LinkAround(added: Entity, other: Entity, ghost s: seq<Entity>, ghost p: Root, ghost k: nat)
    requires Links(s, p, Before(s), After(s)) && added !in s && k < |s| && other == s[k]
    requires other.father == if k == 0 then null else s[k - 1]
    modifies s
    ensures Links(s, p, Before(s)[k := added], AfterNaming(s, k, added))
    ensures added.father == old(added.father) && added.child == old(added.child) && added.branch == old(added.branch)
  {
    ghost var fathers, children := Before(s), After(s);
    if other.father != null {
      assert s[k - 1] in s;
      SetChild(other.father, added, s, p, k - 1, fathers, children);
      children := children[k - 1 := added];
    }
    SetFather(other, added, s, p, k, fathers, children);
  }

  lemma FathersAppended(s: seq<Entity>, e: Entity, t: seq<Entity>)
    requires s != [] && t == InsertedAt(s, |s|, e)
    requires Fathers(s) == Before(s) && e.father == s[|s| - 1]
    ensures Fathers(t) == Before(t)
  {
    assert t == s + [e];
  }

  lemma ChildrenAppended(s: seq<Entity>, e: Entity, t: seq<Entity>)
    requires s != [] && t == InsertedAt(s, |s|, e)
    requires Children(s) == After(s)[|s| - 1 := e] && e.child == null
    ensures Children(t) == After(t)
  {
    assert t == s + [e];
  }

  lemma AppendedIsLinked(head: Entity?, s: seq<Entity>, p: Root, e: Entity, t: seq<Entity>)
    requires s != [] && e !in s && e.branch == p && head == s[0]
    requires Links(s, p, Before(s), After(s)[|s| - 1 := e]) && e.father == s[|s| - 1] && e.child == null
    requires t == InsertedAt(s, |s|, e)
    ensures Linked(head, t, p)
  {
    HeadInserted(s, |s|, e, p, t);
    DistinctInserted(s, |s|, e, t);
    FathersAppended(s, e, t);
    ChildrenAppended(s, e, t);
  }

  method Append(root: Entity, last: Entity, toadd: Entity, ghost s: seq<Entity>, ghost p: Root)
    requires Linked(root, s, p) && s != [] && last == s[|s| - 1]
    requires toadd !in s && toadd.branch == p && toadd.child == null
    modifies last`child, toadd`father
    ensures Linked(root, InsertedAt(s, |s|, toadd), p)
  {
    toadd.father := last;
    SetChild(last, toadd, s, p, |s| - 1, Before(s), After(s));
    AppendedIsLinked(root, s, p, toadd, InsertedAt(s, |s|, toadd));
  }

  /** A chain none of whose entities changed is still linked. */
  twostate lemma LinkedFrame(new head: Entity?, new s: seq<Entity>, new p: Root)
    requires old(allocated(head)) && old(allocated(s)) && old(allocated(p))
    requires old(Linked(head, s, p)) && forall e :: e in s ==> unchanged(e)
    ensures Linked(head, s, p)
  {
    forall i | 0 <= i < |s|
      ensures s[i].father == old(s[i].father) && s[i].child == old(s[i].child)
    {
      assert s[i] in s;
    }
    assert old(Fathers(s)) == Fathers(s);
    assert old(Children(s)) == Children(s);
  }

  /** A list keeps its shape while only entities of two other lists change. */
  twostate lemma ThirdFrame(new third: Root, new from: Root, new to: Root)
    requires old(allocated(third)) && old(third.Valid()) && unchanged(third) && third != from && third != to
    requires forall e: Entity :: old(allocated(e)) && old(e.branch) != to && old(e.branch) != from ==> unchanged(e)
    ensures third.Valid()
  {
    forall e | e in third.s
      ensures unchanged(e)
    {
      assert old(e.branch) == third;
    }
    assert forall i :: 0 <= i < |third.s| ==> third.s[i] in third.s;
    assert old(Fathers(third.s)) == Fathers(third.s);
    assert old(Children(third.s)) == Children(third.s);
  }

  lemma PassedMore(s: seq<Entity>, e: Entity, compare: Option<Comparator>, k: nat)
    requires k < |s| && Passed(s, e, compare, k) && (compare.None? || compare.value(e.value, s[k].value) != 1)
    ensures Passed(s, e, compare, k + 1)
  {
  }

  /** Walks the chain up to the first entity the comparator puts after `toadd`, or to its end. */
  method FindSpot(root: Entity, toadd: Entity, compare: Option<Comparator>, ghost p: Root, ghost s: seq<Entity>)
    returns (at: Entity, found: bool)
    requires Linked(root, s, p)
    ensures var k := Spot(s, toadd, compare);
      s != [] && if found then k < |s| && at == s[k] else k == |s| && at == s[|s| - 1]
  {
    at := root;
    ghost var k := 0;
    while true
      invariant k < |s| && at == s[k] && Passed(s, toadd, compare, k)
      decreases |s| - k
    {
      if compare.Some? && compare.value(toadd.value, at.value) == 1 {
        SpotIs(s, toadd, compare, k);
        return at, true;
      }
      ChildIs(root, s, p, k);
      PassedMore(s, toadd, compare, k);
      if at.child == null {
        assert k + 1 == |s|;
        SpotIs(s, toadd, compare, k + 1);
        return at, false;
      }
      at := at.child;
      k := k + 1;
    }
  }

  /** Adds an entity in front of the first one the comparator puts after it, at the end otherwise. */
  method AddToNext(root: Entity?, toadd: Entity, p: Root, compare: Option<Comparator>, ghost s: seq<Entity>)
    returns (newRoot: Entity?)
    requires Linked(root, s, p) && toadd !in s
    modifies s, toadd
    ensures Linked(newRoot, Inserted(s, toadd, compare), p)
  {
    toadd.child := null;
    toadd.father := null;
    toadd.branch := p;
    if root == null {
      return toadd;
    }
    LinkedFrame(root, s, p);
    var at, found := FindSpot(root, toadd, compare, p, s);
    newRoot := root;
    ghost var k := Spot(s, toadd, compare);
    if found {
      FatherIs(root, s, p, k);
      if at.father == null {
        newRoot := toadd;
      }
      AddBeforeEnt(toadd, at, root, s, p, k);
    } else {
      Append(root, at, toadd, s, p);
    }
  }

  // ---------- Taking out ----------

  function RemovedAt<T>(s: seq<T>, k: nat): seq<T>
    requires k < |s|
  {
    s[..k] + s[k + 1..]
  }

  function IndexOf(s: seq<Entity>, e: Entity): (k: nat)
    requires e in s
    ensures k < |s| && s[k] == e
  {
    if s[0] == e then 0 else 1 + IndexOf(s[1..], e)
  }

  function Without(s: seq<Entity>, e: Entity): seq<Entity>
    requires e in s
  {
    RemovedAt(s, IndexOf(s, e))
  }

  lemma HeadRemoved(s: seq<Entity>, k: nat, p: Root, t: seq<Entity>)
    requires k < |s| && AllIn(s, p) && Distinct(s) && t == RemovedAt(s, k)
    ensures AllIn(t, p) && Distinct(t)
    ensures t == [] <==> |s| == 1
    ensures t != [] ==> t[0] == if k == 0 then s[1] else s[0]
  {
  }

  lemma FatherAfterRemoval(s: seq<Entity>, k: nat, t: seq<Entity>, i: nat, j: nat)
    requires k < |s| && t == RemovedAt(s, k) && i < |t| && j == if i < k then i else i + 1
    requires s[j].father == if j == k + 1 then Before(s)[k] else Before(s)[j]
    ensures t[i] == s[j] && t[i].father == Before(t)[i]
  {
  }

  lemma ChildAfterRemoval(s: seq<Entity>, k: nat, t: seq<Entity>, i: nat, j: nat)
    requires k < |s| && t == RemovedAt(s, k) && i < |t| && j == if i < k then i else i + 1
    requires s[j].child == if j + 1 == k then After(s)[k] else After(s)[j]
    ensures t[i] == s[j] && t[i].child == After(t)[i]
  {
  }

  lemma FathersRemoved(s: seq<Entity>, k: nat, t: seq<Entity>)
    requires k < |s| && t == RemovedAt(s, k)
    requires Fathers(s) == if k + 1 < |s| then Before(s)[k + 1 := Before(s)[k]] else Before(s)
    ensures Fathers(t) == Before(t)
  {
    forall i | 0 <= i < |t|
      ensures Fathers(t)[i] == Before(t)[i]
    {
      var j := if i < k then i else i + 1;
      assert s[j].father == Fathers(s)[j];
      FatherAfterRemoval(s, k, t, i, j);
    }
  }

  lemma ChildrenRemoved(s: seq<Entity>, k: nat, t: seq<Entity>)
    requires k < |s| && t == RemovedAt(s, k)
    requires Children(s) == if k > 0 then After(s)[k - 1 := After(s)[k]] else After(s)
    ensures Children(t) == After(t)
  {
    forall i | 0 <= i < |t|
      ensures Children(t)[i] == After(t)[i]
    {
      var j := if i < k then i else i + 1;
      assert s[j].child == Children(s)[j];
      ChildAfterRemoval(s, k, t, i, j);
    }
  }

  lemma RemovedIsLinked(head: Entity?, s: seq<Entity>, p: Root, k: nat, t: seq<Entity>)
    requires k < |s| && t == RemovedAt(s, k)
    requires head == if k > 0 then s[0] else if |s| > 1 then s[1] else null
    requires Links(s, p, if k + 1 < |s| then Before(s)[k + 1 := Before(s)[k]] else Before(s),
                      if k > 0 then After(s)[k - 1 := After(s)[k]] else After(s))
    ensures Linked(head, t, p)
  {
    HeadRemoved(s, k, p, t);
    FathersRemoved(s, k, t);
    ChildrenRemoved(s, k, t);
  }

  /** Takes an entity out of its chain; its own links are left as they were. */
  method Unlink(root: Entity?, e: Entity, ghost p: Root, ghost s: seq<Entity>) returns (newRoot: Entity?)
    requires Linked(root, s, p) && e in s
    modifies s
    ensures Linked(newRoot, Without(s, e), p)
    ensures e.branch == p
  {
    ghost var k := IndexOf(s, e);
    FatherIs(root, s, p, k);
    ChildIs(root, s, p, k);
    ghost var fathers, children := Before(s), After(s);
    assert Links(s, p, fathers, children);
    newRoot := root;
    if e == root {
      newRoot := e.child;
      if e.child != null {
        SetFather(e.child, null, s, p, k + 1, fathers, children);
      }
    } else {
      SetChild(e.father, e.child, s, p, k - 1, fathers, children);
      if e.child != null {
        SetFather(e.child, e.father, s, p, k + 1, fathers, children[k - 1 := e.child]);
      }
    }
    RemovedIsLinked(newRoot, s, p, k, RemovedAt(s, k));
  }

  lemma WithoutIsRest(s: seq<Entity>, e: Entity)
    requires Distinct(s) && e in s
    ensures forall x :: x in Without(s, e) <==> x in s && x != e
  {
    var k := IndexOf(s, e);
    forall x | x in s && x != e
      ensures x in Without(s, e)
    {
      var i :| 0 <= i < |s| && s[i] == x;
      assert Without(s, e)[if i < k then i else i - 1] == x;
    }
  }

  lemma ListsAreDisjoint(s: seq<Entity>, p: Root, t: seq<Entity>, q: Root)
    requires AllIn(s, p) && AllIn(t, q) && p != q
    ensures forall e :: e in s ==> e !in t
  {
  }

  lemma InsertedAtEnd(s: seq<Entity>, e: Entity)
    ensures Inserted(s, e, None) == s + [e]
  {
    SpotIs(s, e, None, |s|);
  }

  /** Takes an entity out of one chain and adds it at the end of another. */
  method Transfer(fromFirst: Entity?, toFirst: Entity?, en: Entity, ghost from: Root, to: Root,
                  ghost s: seq<Entity>, ghost t: seq<Entity>)
    returns (newFrom: Entity?, newTo: Entity?)
    requires Linked(fromFirst, s, from) && Linked(toFirst, t, to) && from != to && en in s
    modifies s, t
    ensures Linked(newFrom, Without(s, en), from) && Linked(newTo, t + [en], to)
  {
    ListsAreDisjoint(s, from, t, to);
    newFrom := Unlink(fromFirst, en, from, s);
    LinkedFrame(toFirst, t, to);
    newTo := AddAfterUnlink(newFrom, toFirst, en, from, to, s, t, Without(s, en));
  }

  /** The entity that left one chain goes to the end of another. */
  method AddAfterUnlink(ghost fromFirst: Entity?, toFirst: Entity?, en: Entity, ghost from: Root, to: Root,
                        ghost s: seq<Entity>, ghost t: seq<Entity>, ghost rest: seq<Entity>)
    returns (newTo: Entity?)
    requires Linked(fromFirst, rest, from) && Linked(toFirst, t, to) && en in s && Distinct(s) && rest == Without(s, en)
    requires forall e :: e in s ==> e !in t
    modifies t, en
    ensures Linked(fromFirst, rest, from) && Linked(newTo, t + [en], to)
  {
    WithoutIsRest(s, en);
    newTo := AddToNext(toFirst, en, to, None, t);
    InsertedAtEnd(t, en);
    LinkedFrame(fromFirst, rest, from);
  }

  method SetRoots(from: Root, newFrom: Entity?, ghost s: seq<Entity>, to: Root, newTo: Entity?, ghost t: seq<Entity>)
    requires from != to && Linked(newFrom, s, from) && Linked(newTo, t, to)
    modifies from, to
    ensures from.Valid() && from.s == s && to.Valid() && to.s == t
  {
    from.first, from.s := newFrom, s;
    to.first, to.s := newTo, t;
    LinkedFrame(newFrom, s, from);
    LinkedFrame(newTo, t, to);
  }

  /** Moves an entity to another list, unless it is there already: it leaves its own list and goes to the
      end of the other. */
  method ChangeBranch(to: Root, en: Entity)
    requires en.branch != null && en.branch.Valid() && en in en.branch.s && to.Valid()
    modifies to, to.s, en.branch, en.branch.s
    ensures forall e: Entity ::
      old(allocated(e)) && old(e.branch) != to && old(e.branch) != old(en.branch) ==> unchanged(e)
    ensures en.branch == to && to.Valid()
    ensures old(en.branch) == to ==> to.s == old(to.s)
    ensures old(en.branch) != to ==>
      && to.s == old(to.s) + [en]
      && old(en.branch).Valid() && old(en.branch).s == Without(old(en.branch.s), en)
  {
    var from: Root := en.branch;
    if from == to {
      return;
    }
    ghost var s, t := from.s, to.s;
    var newFrom, newTo := Transfer(from.first, to.first, en, from, to, s, t);
    assert en in t + [en];
    SetRoots(from, newFrom, Without(s, en), to, newTo, t + [en]);
  }

  /** The first insertion of an entity into a list. */
  method Add(root: Root, en: Entity, compare: Option<Comparator>)
    requires root.Valid() && en !in root.s
    modifies root, root.s, en
    ensures root.Valid() && root.s == Inserted(old(root.s), en, compare)
  {
    ghost var t := Inserted(root.s, en, compare);
    var first := AddToNext(root.first, en, root, compare, root.s);
    label Added:
    root.first, root.s := first, t;
    LinkedFrame@Added(first, t, root);
  }

  /** Takes an entity out of its list for good. */
  method RemoveFromBranch(en: Entity)
    requires en.branch != null && en.branch.Valid() && en in en.branch.s
    modifies en.branch, en.branch.s
    ensures old(en.branch).Valid() && old(en.branch).s == Without(old(en.branch.s), en)
    ensures en.child == null && en.father == null
  {
    var from: Root := en.branch;
    ghost var t := Without(from.s, en);
    WithoutIsRest(from.s, en);
    var first := Unlink(from.first, en, from, from.s);
    label Removed:
    from.first, from.s := first, t;
    en.child := null;
    en.father := null;
    LinkedFrame@Removed(first, t, from);
  }

  // ---------- Searching ----------

  /** The first entity of a list that is identified. */
  function FirstThat(s: seq<Entity>, identify: int -> bool): (k: nat)
    ensures k <= |s|
  {
    if s == [] || identify(s[0].value) then 0 else 1 + FirstThat(s[1..], identify)
  }

  predicate NoneOf(s: seq<Entity>, identify: int -> bool, k: nat)
    requires k <= |s|
  {
    forall j :: 0 <= j < k ==> !identify(s[j].value)
  }

  lemma OneMoreNot(s: seq<Entity>, identify: int -> bool, k: nat)
    requires k < |s| && NoneOf(s, identify, k) && !identify(s[k].value)
    ensures NoneOf(s, identify, k + 1)
  {
  }

  lemma {:induction false} FirstThatIs(s: seq<Entity>, identify: int -> bool, k: nat)
    requires k <= |s| && NoneOf(s, identify, k) && (k < |s| ==> identify(s[k].value))
    ensures FirstThat(s, identify) == k
  {
    if k > 0 {
      FirstThatIs(s[1..], identify, k - 1);
    }
  }

  method LoopAndCheck(head: Entity?, identify: int -> bool, ghost p: Root, ghost s: seq<Entity>) returns (e: Entity?)
    requires Linked(head, s, p)
    ensures var k := FirstThat(s, identify);
      e == if k < |s| then s[k] else null
  {
    e := head;
    ghost var k := 0;
    while e != null
      invariant k <= |s| && e == if k < |s| then s[k] else null
      invariant NoneOf(s, identify, k)
      decreases |s| - k
    {
      if identify(e.value) {
        FirstThatIs(s, identify, k);
        return e;
      }
      ChildIs(head, s, p, k);
      OneMoreNot(s, identify, k);
      e := e.child;
      k := k + 1;
    }
    FirstThatIs(s, identify, k);
  }

  // ---------- What the operations keep ----------

  /** Nobody would be put in front of anybody before them. */
  ghost predicate Ordered(s: seq<Entity>, compare: Comparator) {
    forall i, j :: 0 <= i < j < |s| ==> compare(s[j].value, s[i].value) != 1
  }

  ghost predicate StrictOrder(compare: Comparator) {
    && (forall a, b :: compare(a, b) == 1 ==> compare(b, a) != 1)
    && forall a, b, c :: compare(a, b) == 1 && compare(b, c) == 1 ==> compare(a, c) == 1
  }

  lemma {:induction false} SpotFits(s: seq<Entity>, e: Entity, compare: Comparator)
    ensures var k := Spot(s, e, Some(compare));
      && (forall j :: 0 <= j < k ==> compare(e.value, s[j].value) != 1)
      && (k < |s| ==> compare(e.value, s[k].value) == 1)
  {
    if s != [] && compare(e.value, s[0].value) != 1 {
      SpotFits(s[1..], e, compare);
      var k := Spot(s, e, Some(compare));
      forall j | 0 <= j < k
        ensures compare(e.value, s[j].value) != 1
      {
        assert j > 0 ==> s[j] == s[1..][j - 1];
      }
    }
  }

  lemma NotInFront(compare: Comparator, a: int, e: int, b: int)
    requires StrictOrder(compare) && compare(e, b) == 1 && (a == b || compare(a, b) != 1)
    ensures compare(a, e) != 1
  {
  }

  /** Adding with a comparator keeps a list in order, for any comparator that is a strict order. */
  lemma InsertKeepsOrder(s: seq<Entity>, e: Entity, compare: Comparator)
    requires Ordered(s, compare) && StrictOrder(compare)
    ensures Ordered(Inserted(s, e, Some(compare)), compare)
  {
    SpotFits(s, e, compare);
    var k, t := Spot(s, e, Some(compare)), Inserted(s, e, Some(compare));
    InsertedAtIs(s, k, e, t);
    forall i, j | 0 <= i < j < |t|
      ensures compare(t[j].value, t[i].value) != 1
    {
      if i == k {
        NotInFront(compare, s[j - 1].value, e.value, s[k].value);
      }
    }
  }

  lemma InsertedAtIs(s: seq<Entity>, k: nat, e: Entity, t: seq<Entity>)
    requires k <= |s| && t == InsertedAt(s, k, e)
    ensures |t| == |s| + 1
    ensures forall i :: 0 <= i < |t| ==> t[i] == if i < k then s[i] else if i == k then e else s[i - 1]
  {
  }

  /** Moving an entity loses and duplicates nobody, and changes the order of nobody else. */
  lemma MovingKeepsEntities(s: seq<Entity>, t: seq<Entity>, e: Entity)
    requires e in s
    ensures multiset(Without(s, e)) + multiset(t + [e]) == multiset(s) + multiset(t)
  {
    var k := IndexOf(s, e);
    var a, b := s[..k], s[k + 1..];
    assert s == a + [e] + b;
    Joined(a, [e], b);
    assert multiset(Without(s, e)) == multiset(a) + multiset(b);
    assert multiset(t + [e]) == multiset(t) + multiset([e]);
  }

  lemma Joined(a: seq<Entity>, b: seq<Entity>, c: seq<Entity>)
    ensures multiset(a + b + c) == multiset(a) + multiset(b) + multiset(c)
  {
  }
}
