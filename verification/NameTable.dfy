/** The table of recordings by name: open addressing with linear probing, nothing ever deleted. */
module NameTable {
  import opened Bytes
  import opened Options

  type Name = seq<byte>

  type Table = seq<Option<Name>>

  function Sum(key: Name): nat {
    if key == [] then 0 else Sum(key[..|key| - 1]) + key[|key| - 1]
  }

  function Home(key: Name, size: nat): (v: nat)
    requires size > 0
    ensures v < size
  {
    Sum(key) % size
  }

  /** The probe goes no further from here. */
  predicate Stops(t: Table, key: Name, v: nat)
    requires v < |t|
  {
    t[v] == None || t[v] == Some(key)
  }

  function Next(v: nat, size: nat): nat {
    if v + 1 >= size then 0 else v + 1
  }

  /** The first of `left` slots from v on, around the end, that is free or holds the key. */
  function Probe(t: Table, key: Name, v: nat, left: nat): (r: Option<nat>)
    requires v < |t|
    ensures r.Some? ==> r.value < |t| && Stops(t, key, r.value)
    decreases left
  {
    if left == 0 then None
    else if Stops(t, key, v) then Some(v)
    else Probe(t, key, Next(v, |t|), left - 1)
  }

  function Lookup(t: Table, key: Name): (r: Option<nat>)
    requires |t| > 0
    ensures r.Some? ==> r.value < |t| && Stops(t, key, r.value)
  {
    Probe(t, key, Home(key, |t|), |t|)
  }

  /** What is found when only names that are set are asked for. */
  function LookupSet(t: Table, key: Name): Option<nat>
    requires |t| > 0
  {
    if t[Home(key, |t|)] == None then None else Lookup(t, key)
  }

  /** The loop of the hash function, one pass over the end allowed. */
  method HashFunction(t: array<Option<Name>>, key: Name, getNotSet: bool) returns (value: int)
    requires t.Length > 0
    ensures key == [] ==> value == -1
    ensures key != [] ==>
      match if getNotSet then LookupSet(t[..], key) else Lookup(t[..], key)
      case None => value == -1
      case Some(v) => value == v
  {
    if |key| == 0 {
      return -1;
    }
    var sum := 0;
    for i := 0 to |key|
      invariant sum == Sum(key[..i])
    {
      assert key[..i + 1][..i] == key[..i];
      sum := sum + key[i];
    }
    assert key[..|key|] == key;
    var home := sum % t.Length;
    value := home;
    if t[value] == None {
      if getNotSet {
        value := -1;
      }
      return;
    }
    var goneover := false;
    while t[value] != None && t[value] != Some(key)
      invariant 0 <= value < t.Length
      invariant !goneover ==> home <= value && Lookup(t[..], key) == Probe(t[..], key, value, t.Length - (value - home))
      invariant goneover && value <= home ==> Lookup(t[..], key) == Probe(t[..], key, value, home - value)
      invariant goneover && value > home ==> Lookup(t[..], key) == None
      decreases !goneover, t.Length - value
    {
      value := value + 1;
      if value >= t.Length {
        if !goneover {
          goneover := true;
        } else {
          return -1;
        }
        value := 0;
      }
    }
    if goneover && value >= home {
      assert Lookup(t[..], key) == None;
      BlockedEverywhere(t[..], key, home, value);
    }
  }

  /** Every byte of a name counts once, wherever it stands. */
  lemma {:induction false} SumJoins(a: Name, b: Name)
    ensures Sum(a + b) == Sum(a) + Sum(b)
    ensures |b| == 1 ==> Sum(b) == b[0]
  {
    if b == [] {
      assert a + b == a;
    } else {
      SumJoins(a, b[..|b| - 1]);
      assert (a + b)[..|a + b| - 1] == a + b[..|b| - 1];
    }
  }

  lemma {:induction false} ProbePasses(t: Table, key: Name, from: nat, left: nat, u: nat, v: nat)
    requires from < |t| && u < |t| && Probe(t, key, from, left) == Some(v)
    requires if from <= v then from <= u < v else from <= u || u < v
    ensures !Stops(t, key, u)
    decreases left
  {
    if u != from && !Stops(t, key, from) {
      ProbePasses(t, key, Next(from, |t|), left - 1, u, v);
    }
  }

  /** The slot found is free or holds the name, and all slots from the home slot, the sum of the bytes modulo the
      size, up to it, around the end if it comes before the home slot, are taken by other names. */
  lemma LookupIsFirst(t: Table, key: Name, v: nat)
    requires |t| > 0 && Lookup(t, key) == Some(v)
    ensures v < |t| && (t[v] == None || t[v] == Some(key))
    ensures var home := Sum(key) % |t|;
      forall u :: 0 <= u < |t| && (if home <= v then home <= u < v else home <= u || u < v) ==>
        t[u].Some? && t[u] != Some(key)
  {
    var home := Sum(key) % |t|;
    forall u | 0 <= u < |t| && (if home <= v then home <= u < v else home <= u || u < v)
      ensures t[u].Some? && t[u] != Some(key)
    {
      ProbePasses(t, key, home, |t|, u, v);
    }
  }

  /** A probe over the whole table that finds nothing has seen every slot taken by somebody else. */
  lemma BlockedEverywhere(t: Table, key: Name, home: nat, v: nat)
    requires home < |t| && v < |t| && Probe(t, key, home, |t|) == None
    ensures !Stops(t, key, v)
  {
    BlockedUpTo(t, key, home, |t|, if v >= home then v - home else v + |t| - home);
  }

  /** The slot k steps on from v. */
  function Onward(v: nat, k: nat, size: nat): nat
    requires v < size && k < size
  {
    if v + k < size then v + k else v + k - size
  }

  lemma {:induction false} BlockedUpTo(t: Table, key: Name, v: nat, left: nat, k: nat)
    requires v < |t| && left <= |t| && Probe(t, key, v, left) == None && k < left
    ensures !Stops(t, key, Onward(v, k, |t|))
    decreases left
  {
    if k > 0 {
      BlockedUpTo(t, key, Next(v, |t|), left - 1, k - 1);
    }
  }

  // ---------- The table over any sequence of insertions ----------

  /** Every name is found where it is. */
  ghost predicate Valid(t: Table) {
    |t| > 0 && forall v :: 0 <= v < |t| && t[v].Some? ==> Lookup(t, t[v].value) == Some(v)
  }

  ghost predicate Holds(t: Table, key: Name) {
    Some(key) in t
  }

  ghost predicate Full(t: Table) {
    forall v :: 0 <= v < |t| ==> t[v].Some?
  }

  /** For a table that was only ever inserted into: the slot returned holds the name exactly when the name is in
      the table; otherwise it is free, and there is none exactly when the table is full. */
  lemma LookupIsExact(t: Table, key: Name)
    requires Valid(t)
    ensures var r := Lookup(t, key);
      && (Holds(t, key) <==> r.Some? && t[r.value] == Some(key))
      && (!Holds(t, key) ==> (r.Some? && t[r.value] == None) || (r.None? && Full(t)))
      && (!Holds(t, key) && !Full(t) ==> r.Some?)
  {
    if Lookup(t, key).None? {
      forall v | 0 <= v < |t|
        ensures t[v].Some? && t[v] != Some(key)
      {
        BlockedEverywhere(t, key, Home(key, |t|), v);
      }
    }
  }

  lemma {:induction false} ProbeAfterInsert(t: Table, key: Name, v: nat, x: Name, from: nat, left: nat, u: nat)
    requires v < |t| && t[v] == None && from < |t| && Probe(t, x, from, left) == Some(u) && t[u] == Some(x)
    ensures Probe(t[v := Some(key)], x, from, left) == Some(u)
    decreases left
  {
    if !Stops(t, x, from) {
      ProbeAfterInsert(t, key, v, x, Next(from, |t|), left - 1, u);
    }
  }

  lemma {:induction false} ProbeFindsInserted(t: Table, key: Name, v: nat, from: nat, left: nat)
    requires from < |t| && Probe(t, key, from, left) == Some(v)
    ensures Probe(t[v := Some(key)], key, from, left) == Some(v)
    decreases left
  {
    if !Stops(t, key, from) {
      ProbeFindsInserted(t, key, v, Next(from, |t|), left - 1);
    }
  }

  /** Looking the name up with get_not_set 0 and adding it at the slot returned, if there is one. */
  function Insert(t: Table, key: Name): Table
    requires |t| > 0
  {
    if key == [] then t else
      match Lookup(t, key)
      case None => t
      case Some(v) => t[v := Some(key)]
  }

  lemma InsertKeepsValid(t: Table, key: Name)
    requires Valid(t)
    ensures Valid(Insert(t, key)) && |Insert(t, key)| == |t|
    ensures Lookup(t, key).Some? && key != [] ==> Holds(Insert(t, key), key)
    ensures forall x :: x != key ==> (Holds(Insert(t, key), x) <==> Holds(t, x))
  {
    if Lookup(t, key).Some? && key != [] {
      var v, t' := Lookup(t, key).value, Insert(t, key);
      ProbeFindsInserted(t, key, v, Home(key, |t|), |t|);
      forall u | 0 <= u < |t'| && t'[u].Some?
        ensures Lookup(t', t'[u].value) == Some(u)
      {
        if u != v {
          var x := t[u].value;
          if t[v] == None {
            ProbeAfterInsert(t, key, v, x, Home(x, |t|), |t|, u);
          } else {
            assert t' == t;
          }
        }
      }
      assert t'[v] == Some(key);
      forall x | x != key
        ensures Holds(t', x) <==> Holds(t, x)
      {
        if Holds(t, x) {
          var u :| 0 <= u < |t| && t[u] == Some(x);
          assert t'[u] == Some(x);
        }
      }
    }
  }

  function Empty(size: nat): Table {
    seq(size, _ => None)
  }

  function InsertAll(size: nat, keys: seq<Name>): (t: Table)
    requires size > 0
    ensures |t| == size
  {
    if keys == [] then Empty(size) else Insert(InsertAll(size, keys[..|keys| - 1]), keys[|keys| - 1])
  }

  lemma InsertedOrFull(t: Table, key: Name, x: Name)
    requires Valid(t) && x != [] && (x == key || Holds(t, x) || Full(t))
    ensures Holds(Insert(t, key), x) || Full(Insert(t, key))
  {
    InsertKeepsValid(t, key);
    LookupIsExact(t, key);
  }

  /** After any insertions: every name can be found, in one slot only; nothing else is in the table; and a name
      is missing only if the table was full. */
  lemma {:induction false} InsertAllIsExact(size: nat, keys: seq<Name>, x: Name)
    requires size > 0
    ensures var t := InsertAll(size, keys);
      Valid(t) && (Holds(t, x) ==> x in keys) && (x in keys && x != [] ==> Holds(t, x) || Full(t))
  {
    if keys != [] {
      var init, key := keys[..|keys| - 1], keys[|keys| - 1];
      var t := InsertAll(size, init);
      InsertAllIsExact(size, init, x);
      InsertKeepsValid(t, key);
      assert keys == init + [key];
      if x in keys && x != [] {
        InsertedOrFull(t, key, x);
      }
    }
  }

  /** Asking for names that are set is only right by luck: an absent name is reported as absent exactly when
      its home slot is free or the table is full. */
  lemma AbsentIsSeenIff(t: Table, key: Name)
    requires Valid(t) && !Holds(t, key)
    ensures LookupSet(t, key) == None <==> t[Home(key, |t|)] == None || Full(t)
    ensures LookupSet(t, key) != None ==> t[LookupSet(t, key).value] == None
  {
    LookupIsExact(t, key);
  }

  lemma PresentIsSeen(t: Table, key: Name)
    requires Valid(t) && Holds(t, key)
    ensures LookupSet(t, key).Some? && t[LookupSet(t, key).value] == Some(key)
  {
    LookupIsExact(t, key);
  }
}
