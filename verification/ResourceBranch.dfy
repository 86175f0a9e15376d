/** A resource branch: three lists that every entity moves between. */
module ResourceBranch {
  import opened EntityLists
  import opened Options

  /** A move between two lists leaves any third one alone. */
  method ChangeBeside(to: Root, en: Entity, ghost from: Root, ghost third: Root)
    requires from.Valid() && to.Valid() && third.Valid() && from != to && third != from && third != to && en in from.s
    modifies to, to.s, from, from.s
    ensures from.Valid() && from.s == Without(old(from.s), en)
    ensures to.Valid() && to.s == old(to.s) + [en]
    ensures third.Valid() && third.s == old(third.s)
  {
    assert en.branch == from;
    ChangeBranch(to, en);
    ThirdFrame(third, from, to);
  }

  /** Removing an entity from its list leaves any other alone. */
  method RemoveBeside(en: Entity, ghost from: Root, ghost second: Root, ghost third: Root)
    requires from.Valid() && second.Valid() && third.Valid() && second != from && third != from && en in from.s
    modifies from, from.s
    ensures from.Valid() && from.s == Without(old(from.s), en) && en.child == null && en.father == null
    ensures second.Valid() && second.s == old(second.s)
    ensures third.Valid() && third.s == old(third.s)
  {
    assert en.branch == from;
    RemoveFromBranch(en);
    assert forall e: Entity :: old(allocated(e)) && old(e.branch) != from ==> unchanged(e);
    ThirdFrame(second, from, from);
    ThirdFrame(third, from, from);
  }

  method AddAtEnd(to: Root, en: Entity)
    requires to.Valid() && en !in to.s
    modifies to, to.s, en
    ensures to.Valid() && to.s == old(to.s) + [en]
    ensures forall e: Entity :: old(allocated(e)) && old(e.branch) != to && e != en ==> unchanged(e)
  {
    InsertedAtEnd(to.s, en);
    Add(to, en, None);
  }

  /** Adding a new entity to the end of a list leaves any other alone. */
  method AddBeside(to: Root, en: Entity, ghost second: Root, ghost third: Root)
    requires to.Valid() && second.Valid() && third.Valid() && second != to && third != to
    requires en !in to.s && en !in second.s && en !in third.s
    modifies to, to.s, en
    ensures to.Valid() && to.s == old(to.s) + [en]
    ensures second.Valid() && second.s == old(second.s)
    ensures third.Valid() && third.s == old(third.s)
  {
    AddAtEnd(to, en);
    OtherFrame(second, to, en);
    OtherFrame(third, to, en);
  }

  /** A list keeps its shape while only entities of another list and one that is in none change. */
  twostate lemma OtherFrame(new other: Root, new to: Root, new en: Entity)
    requires old(allocated(other)) && old(other.Valid()) && unchanged(other) && other != to && en !in other.s
    requires old(allocated(to)) && old(allocated(en))
    requires forall e: Entity :: old(allocated(e)) && old(e.branch) != to && e != en ==> unchanged(e)
    ensures other.Valid()
  {
    forall e | e in other.s
      ensures unchanged(e)
    {
      assert old(e.branch) == other;
    }
    LinkedFrame(other.first, other.s, other);
  }

  lemma AnyOrder(x: multiset<Entity>, y: multiset<Entity>, z: multiset<Entity>, sum: multiset<Entity>)
    requires sum == x + y
    ensures x + y + z == y + x + z == x + z + y == z + x + y == y + z + x == z + y + x == sum + z
  {
  }

  /** A move between two of three lists keeps their sum, in whichever order they are taken. */
  lemma SumStays(s: seq<Entity>, t: seq<Entity>, third: seq<Entity>, e: Entity)
    requires e in s
    ensures var x, y, z := multiset(s), multiset(t), multiset(third);
      var x', y' := multiset(Without(s, e)), multiset(t + [e]);
      && x' + y' + z == x + y + z && y' + x' + z == y + x + z && z + y' + x' == z + y + x
      && z + x' + y' == z + x + y && x' + z + y' == x + z + y && y' + z + x' == y + z + x
  {
    MovingKeepsEntities(s, t, e);
    AnyOrder(multiset(s), multiset(t), multiset(third), multiset(s) + multiset(t));
    AnyOrder(multiset(Without(s, e)), multiset(t + [e]), multiset(third), multiset(s) + multiset(t));
  }

  /** A branch: who is free, who is in use, and who holds data that can be reused. */
  class Branch {
    const freelist: Root
    const busylist: Root
    const loadedlist: Root

    constructor ()
      ensures Valid() && freelist.s == busylist.s == loadedlist.s == []
    {
      freelist := new Root();
      busylist := new Root();
      loadedlist := new Root();
    }

    ghost predicate Valid()
      reads this, freelist, busylist, loadedlist, freelist.s, busylist.s, loadedlist.s
    {
      && freelist != busylist && freelist != loadedlist && busylist != loadedlist
      && freelist.Valid() && busylist.Valid() && loadedlist.Valid()
    }

    ghost function Entities(): multiset<Entity>
      reads this, freelist, busylist, loadedlist
    {
      multiset(freelist.s) + multiset(busylist.s) + multiset(loadedlist.s)
    }

    /** One try at getting a free entity: the first one that fits the caller goes to the end of the busy
        list, and nothing happens when there is none. */
    method TryGetFree(check: int -> bool) returns (e: Entity?)
      requires Valid()
      modifies freelist, freelist.s, busylist, busylist.s
      ensures Valid() && Entities() == old(Entities()) && loadedlist.s == old(loadedlist.s)
      ensures var s := old(freelist.s);
        var k := FirstThat(s, check);
        if k == |s| then e == null && freelist.s == s && busylist.s == old(busylist.s)
        else e == s[k] && freelist.s == Without(s, s[k]) && busylist.s == old(busylist.s) + [s[k]]
    {
      e := LoopAndCheck(freelist.first, check, freelist, freelist.s);
      if e == null {
        return;
      }
      MovingKeepsEntities(freelist.s, busylist.s, e);
      Take(e);
    }

    method Take(e: Entity)
      requires Valid() && e in freelist.s
      modifies freelist, freelist.s, busylist, busylist.s
      ensures Valid() && loadedlist.s == old(loadedlist.s)
      ensures freelist.s == Without(old(freelist.s), e) && busylist.s == old(busylist.s) + [e]
    {
      ChangeBeside(busylist, e, freelist, loadedlist);
    }

    /** The first insertion: the entity goes to the end of the free list. */
    method AddToEntlist(e: Entity)
      requires Valid() && e !in Entities()
      modifies freelist, freelist.s, e
      ensures Valid() && Entities() == old(Entities()) + multiset{e}
      ensures freelist.s == old(freelist.s) + [e]
      ensures busylist.s == old(busylist.s) && loadedlist.s == old(loadedlist.s)
    {
      AddBeside(freelist, e, busylist, loadedlist);
    }

    method PassSetFree(e: Entity)
      requires Valid() && e in busylist.s
      modifies busylist, busylist.s, freelist, freelist.s
      ensures Valid() && loadedlist.s == old(loadedlist.s)
      ensures busylist.s == Without(old(busylist.s), e) && freelist.s == old(freelist.s) + [e]
    {
      ChangeBeside(freelist, e, busylist, loadedlist);
    }

    /** Gives back an entity nobody waits for. */
    method SetFree(e: Entity)
      requires Valid() && e in busylist.s
      modifies busylist, busylist.s, freelist, freelist.s
      ensures Valid() && Entities() == old(Entities()) && loadedlist.s == old(loadedlist.s)
      ensures busylist.s == Without(old(busylist.s), e) && freelist.s == old(freelist.s) + [e]
    {
      SumStays(busylist.s, freelist.s, loadedlist.s, e);
      PassSetFree(e);
    }

    method PassSetLoaded(e: Entity)
      requires Valid() && e in busylist.s
      modifies busylist, busylist.s, loadedlist, loadedlist.s
      ensures Valid() && freelist.s == old(freelist.s)
      ensures busylist.s == Without(old(busylist.s), e) && loadedlist.s == old(loadedlist.s) + [e]
    {
      ChangeBeside(loadedlist, e, busylist, freelist);
    }

    /** Gives back an entity whose contents can be used again. */
    method SetLoaded(e: Entity)
      requires Valid() && e in busylist.s
      modifies busylist, busylist.s, loadedlist, loadedlist.s
      ensures Valid() && Entities() == old(Entities()) && freelist.s == old(freelist.s)
      ensures busylist.s == Without(old(busylist.s), e) && loadedlist.s == old(loadedlist.s) + [e]
    {
      SumStays(busylist.s, loadedlist.s, freelist.s, e);
      PassSetLoaded(e);
    }

    method PassTakeLoaded(e: Entity)
      requires Valid() && e in loadedlist.s
      modifies loadedlist, loadedlist.s, busylist, busylist.s
      ensures Valid() && freelist.s == old(freelist.s)
      ensures loadedlist.s == Without(old(loadedlist.s), e) && busylist.s == old(busylist.s) + [e]
    {
      ChangeBeside(busylist, e, loadedlist, freelist);
    }

    /** get_loaded on a loaded entity. */
    method TakeLoaded(e: Entity)
      requires Valid() && e in loadedlist.s
      modifies loadedlist, loadedlist.s, busylist, busylist.s
      ensures Valid() && Entities() == old(Entities()) && freelist.s == old(freelist.s)
      ensures loadedlist.s == Without(old(loadedlist.s), e) && busylist.s == old(busylist.s) + [e]
    {
      SumStays(loadedlist.s, busylist.s, freelist.s, e);
      PassTakeLoaded(e);
    }

    method PassFreeLoaded(e: Entity)
      requires Valid() && e in loadedlist.s
      modifies loadedlist, loadedlist.s, freelist, freelist.s
      ensures Valid() && busylist.s == old(busylist.s)
      ensures loadedlist.s == Without(old(loadedlist.s), e) && freelist.s == old(freelist.s) + [e]
    {
      ChangeBeside(freelist, e, loadedlist, busylist);
    }

    /** block_until_free on a loaded entity. */
    method FreeLoaded(e: Entity)
      requires Valid() && e in loadedlist.s
      modifies loadedlist, loadedlist.s, freelist, freelist.s
      ensures Valid() && Entities() == old(Entities()) && busylist.s == old(busylist.s)
      ensures loadedlist.s == Without(old(loadedlist.s), e) && freelist.s == old(freelist.s) + [e]
    {
      SumStays(loadedlist.s, freelist.s, busylist.s, e);
      PassFreeLoaded(e);
    }

    method TakeOut(e: Entity)
      requires Valid() && e in Entities()
      modifies freelist, freelist.s, busylist, busylist.s, loadedlist, loadedlist.s
      ensures Valid() && freelist.s == Rest(old(freelist.s), e)
      ensures busylist.s == Rest(old(busylist.s), e) && loadedlist.s == Rest(old(loadedlist.s), e)
    {
      InOneList(e, freelist, busylist, loadedlist);
      if e.branch == freelist {
        RemoveBeside(e, freelist, busylist, loadedlist);
      } else if e.branch == busylist {
        RemoveBeside(e, busylist, freelist, loadedlist);
      } else {
        RemoveBeside(e, loadedlist, freelist, busylist);
      }
    }

    /** Removes an entity from whichever list it is in. */
    method Remove(e: Entity)
      requires Valid() && e in Entities()
      modifies freelist, freelist.s, busylist, busylist.s, loadedlist, loadedlist.s
      ensures Valid() && Entities() == old(Entities()) - multiset{e} && e !in Entities()
      ensures freelist.s == Rest(old(freelist.s), e)
      ensures busylist.s == Rest(old(busylist.s), e) && loadedlist.s == Rest(old(loadedlist.s), e)
    {
      InOneList(e, freelist, busylist, loadedlist);
      RestSum(freelist.s, busylist.s, loadedlist.s, e);
      TakeOut(e);
    }
  }

  /** The list without the entity, if it was there. */
  function Rest(s: seq<Entity>, e: Entity): seq<Entity> {
    if e in s then Without(s, e) else s
  }

  /** An entity of the branch is in the list whose root it names, and in no other. */
  lemma InOneList(e: Entity, a: Root, b: Root, c: Root)
    requires a.Valid() && b.Valid() && c.Valid() && a != b && a != c && b != c
    requires e in a.s || e in b.s || e in c.s
    ensures (e in a.s <==> e.branch == a) && (e in b.s <==> e.branch == b) && (e in c.s <==> e.branch == c)
  {
  }

  lemma RestCounts(s: seq<Entity>, e: Entity)
    requires Distinct(s)
    ensures multiset(Rest(s, e)) == multiset(s) - multiset{e} && e !in Rest(s, e)
  {
    if e in s {
      var k := IndexOf(s, e);
      assert s == s[..k] + [e] + s[k + 1..];
      WithoutIsRest(s, e);
    }
  }

  lemma RestSum(s: seq<Entity>, t: seq<Entity>, u: seq<Entity>, e: Entity)
    requires Distinct(s) && Distinct(t) && Distinct(u) && (e in s || e in t || e in u)
    requires !(e in s && e in t) && !(e in s && e in u) && !(e in t && e in u)
    ensures multiset(Rest(s, e)) + multiset(Rest(t, e)) + multiset(Rest(u, e))
         == multiset(s) + multiset(t) + multiset(u) - multiset{e}
    ensures e !in multiset(Rest(s, e)) + multiset(Rest(t, e)) + multiset(Rest(u, e))
  {
    RestCounts(s, e);
    RestCounts(t, e);
    RestCounts(u, e);
  }
}
