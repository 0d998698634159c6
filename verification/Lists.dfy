/** Sequences of addresses, as the contents of linked lists. */
module Lists {

  function First(l: seq<nat>): nat {
    if l == [] then 0 else l[0]
  }

  ghost predicate Distinct(l: seq<nat>) {
    forall j, k :: 0 <= j < k < |l| ==> l[j] != l[k]
  }

  lemma DistinctAppend(l: seq<nat>, m: seq<nat>)
    requires Distinct(l) && Distinct(m) && forall a :: a in l ==> a !in m
    ensures Distinct(l + m)
  {
    var n := l + m;
    forall j, k | 0 <= j < k < |n| ensures n[j] != n[k] {
      if j < |l| <= k { assert n[j] in l && n[k] in m; }
    }
  }

  function SetOf(l: seq<nat>): set<nat> {
    set a | a in l
  }

  ghost predicate Increasing(l: seq<nat>) {
    forall j, k :: 0 <= j < k < |l| ==> l[j] < l[k]
  }

  lemma IncreasingCons(x: nat, l: seq<nat>)
    requires Increasing(l) && forall a :: a in l ==> x < a
    ensures Increasing([x] + l)
  {
    var m := [x] + l;
    forall j, k | 0 <= j < k < |m| ensures m[j] < m[k] {
      assert m[k] == l[k - 1] && l[k - 1] in l;
      if j > 0 { assert m[j] == l[j - 1]; }
    }
  }

  // ---------------------------------------------------------------------------------------
  // Singly linked lists in memory

  /** The word of each item points to the next, the last word is null. */
  ghost predicate Linked(link: map<nat, nat>, head: nat, l: seq<nat>)
    decreases l
  {
    if l == [] then head == 0
    else head != 0 && head == l[0] && head in link && Linked(link, link[head], l[1..])
  }

  /** Memory after threading the items of l; the list ends in `tail`. */
  function Threaded(link: map<nat, nat>, l: seq<nat>, tail: nat): map<nat, nat>
    decreases l
  {
    if l == [] then link
    else Threaded(link, l[1..], tail)[l[0] := if l[1..] == [] then tail else l[1]]
  }

  lemma {:induction false} LinkedFrame(link: map<nat, nat>, link': map<nat, nat>, head: nat, l: seq<nat>)
    requires Linked(link, head, l)
    requires forall a :: a in l ==> a in link && a in link' && link'[a] == link[a]
    ensures Linked(link', head, l)
    decreases l
  {
    if l != [] {
      assert l[0] in l;
      assert forall a :: a in l[1..] ==> a in l;
      LinkedFrame(link, link', link[head], l[1..]);
    }
  }

  /** Memory and head determine the list. */
  lemma {:induction false} LinkedUnique(link: map<nat, nat>, head: nat, l: seq<nat>, l': seq<nat>)
    requires Linked(link, head, l) && Linked(link, head, l')
    ensures l == l'
    decreases l
  {
    if l != [] {
      LinkedUnique(link, link[head], l[1..], l'[1..]);
      assert l == [l[0]] + l[1..] && l' == [l'[0]] + l'[1..];
    }
  }

  lemma {:induction false} LinkedKeys(link: map<nat, nat>, head: nat, l: seq<nat>)
    requires Linked(link, head, l)
    ensures forall a :: a in l ==> a in link && a != 0
    decreases l
  {
    if l != [] {
      LinkedKeys(link, link[head], l[1..]);
      forall a | a in l ensures a in link && a != 0 {
        if a != l[0] { assert a in l[1..]; }
      }
    }
  }

  /** deallocate: write the old head into the item and make it the head. */
  lemma LinkedPush(link: map<nat, nat>, head: nat, l: seq<nat>, a: nat)
    requires Linked(link, head, l) && a != 0 && a !in l
    ensures Linked(link[a := head], a, [a] + l)
  {
    LinkedKeys(link, head, l);
    LinkedFrame(link, link[a := head], head, l);
    assert ([a] + l)[1..] == l;
  }

  lemma {:induction false} ThreadedKeys(link: map<nat, nat>, l: seq<nat>, tail: nat)
    ensures Threaded(link, l, tail).Keys == link.Keys + set a | a in l
    ensures forall a :: a in link && a !in l ==> Threaded(link, l, tail)[a] == link[a]
    decreases l
  {
    if l != [] {
      ThreadedKeys(link, l[1..], tail);
      assert forall a :: a in l <==> a == l[0] || a in l[1..];
    }
  }

  /** Threading makes a list of exactly those items, ending in null. */
  lemma {:induction false} ThreadedLinked(link: map<nat, nat>, l: seq<nat>)
    requires Distinct(l) && 0 !in l
    ensures Linked(Threaded(link, l, 0), First(l), l)
    decreases l
  {
    if l != [] {
      ThreadedLinked(link, l[1..]);
      var link1 := Threaded(link, l[1..], 0);
      ThreadedKeys(link, l[1..], 0);
      assert l[0] !in l[1..];
      LinkedFrame(link1, Threaded(link, l, 0), First(l[1..]), l[1..]);
      assert l[0] in l;
    }
  }

  /** Threading one item more at the end. */
  lemma {:induction false} ThreadedSnoc(link: map<nat, nat>, l: seq<nat>, a: nat, tail: nat)
    requires a !in l
    ensures Threaded(link, l + [a], tail) == Threaded(link, l, a)[a := tail]
    decreases l
  {
    if l == [] {
      assert l + [a] == [a];
      assert [a][1..] == [];
    } else {
      assert (l + [a])[1..] == l[1..] + [a];
      ThreadedSnoc(link, l[1..], a, tail);
      assert l[0] in l;
      if l[1..] != [] { assert (l + [a])[1] == l[1]; }
    }
  }
}
