/** Singly linked lists with a header, changed in place. */
module Lists {
  class Elem<T> {
    var cont: T
    var next: Elem?<T>

    constructor (c: T)
      ensures cont == c && next == null
    {
      cont, next := c, null;
    }
  }

  /** The elements from first on, in order, ending with null. */
  ghost predicate Chain<T>(spine: seq<Elem<T>>)
    reads spine
  {
    && (forall i {:trigger spine[i].next} :: 0 <= i < |spine| ==>
          spine[i].next == if i + 1 < |spine| then spine[i + 1] else null)
    && (forall i, j :: 0 <= i < j < |spine| ==> spine[i] != spine[j])
  }

  ghost function Conts<T>(spine: seq<Elem<T>>): (s: seq<T>)
    reads spine
    ensures |s| == |spine| && forall i {:trigger s[i]} :: 0 <= i < |s| ==> s[i] == spine[i].cont
  {
    seq(|spine|, i requires 0 <= i < |spine| reads spine => spine[i].cont)
  }

  function HeadOf<T>(spine: seq<Elem<T>>): Elem?<T> {
    if spine == [] then null else spine[0]
  }

  function LastOf<T>(spine: seq<Elem<T>>): Elem?<T> {
    if spine == [] then null else spine[|spine| - 1]
  }

  /** A list header; the header without elements stands for NULL_LIST. */
  class List<T> {
    var start: Elem?<T>
    var last: Elem?<T>
    var size: nat
    ghost var spine: seq<Elem<T>>
    ghost var Repr: set<Elem<T>>   // at least the elements of spine

    ghost predicate Valid()
      reads this, Repr
    {
      && (forall i {:trigger spine[i]} :: 0 <= i < |spine| ==> spine[i] in Repr)
      && start == HeadOf(spine) && last == LastOf(spine) && size == |spine| && Chain(spine)
    }

    ghost function Contents(): (s: seq<T>)
      requires Valid()
      reads this, Repr
      ensures |s| == size
    {
      Conts(spine)
    }

    constructor ()
      ensures Valid() && Repr == {} && Contents() == []
    {
      start, last, size, spine, Repr := null, null, 0, [], {};
    }

    /** append_cont */
    method Append(c: T)
      requires Valid()
      modifies this, Repr
      ensures Valid() && fresh(Repr - old(Repr)) && Contents() == old(Contents()) + [c]
    {
      var e := new Elem(c);
      ghost var before := spine;
      if start != null {
        last.next := e;
      } else {
        start := e;
      }
      last := e;
      size := size + 1;
      spine, Repr := spine + [e], Repr + {e};
    }

    /** push_cont */
    method Push(c: T)
      requires Valid()
      modifies this, Repr
      ensures Valid() && fresh(Repr - old(Repr)) && Contents() == [c] + old(Contents())
    {
      var e := new Elem(c);
      e.next := start;
      if start == null {
        last := e;
      }
      start := e;
      size := size + 1;
      spine, Repr := [e] + spine, Repr + {e};
    }

    /** pop_cont on a list with elements */
    method Pop() returns (c: T)
      requires Valid() && size > 0
      modifies this, Repr
      ensures Valid() && Repr == old(Repr) && size == old(size) - 1
      ensures c == old(Contents())[0] && Contents() == old(Contents())[1..]
    {
      size := size - 1;
      c := start.cont;
      start := start.next;
      if start == null {
        last := null;
      }
      spine := spine[1..];
    }

    /** concat_lists: the other header is given up. */
    method Concat(other: List<T>)
      requires Valid() && other.Valid() && other != this && Repr !! other.Repr
      modifies this, Repr, other.Repr
      ensures Valid() && Contents() == old(Contents()) + old(other.Contents())
      ensures spine == old(spine) + old(other.spine) && Repr == old(Repr) + old(other.Repr)
    {
      if start == null {
        start := other.start;
      } else {
        last.next := other.start;
      }
      if other.start != null {
        last := other.last;
      }
      size := size + other.size;
      spine, Repr := spine + other.spine, Repr + other.Repr;
    }

    /** BDD_ELEM_SET_CONTENTS on element k. */
    method SetContents(e: Elem<T>, ghost k: nat, c: T)
      requires Valid() && k < size && |spine| == size && e == spine[k]
      modifies e
      ensures Valid() && Contents() == old(Contents())[k := c]
    {
      e.cont := c;
    }

    /** Element k of the list. */
    method ElemAt(k: nat) returns (p: Elem<T>)
      requires Valid() && k < size
      ensures p == spine[k]
    {
      p := start;
      for i := 0 to k
        invariant p == spine[i]
      {
        p := p.next;
      }
    }

    /** Behind element p, number rest - 1, the list is cut; the second part goes to other. */
    method CutInto(other: List<T>, p: Elem<T>, rest: nat)
      requires Valid() && 0 < rest < size && |spine| == size && p == spine[rest - 1] && other != this && other.Repr == {}
      modifies this, p, other
      ensures Valid() && other.Valid() && Repr !! other.Repr && Repr + other.Repr <= old(Repr)
      ensures spine == old(spine)[..rest] && other.spine == old(spine)[rest..] && p.cont == old(p.cont)
    {
      other.start, other.last, other.size, other.spine := p.next, last, size - rest, spine[rest..];
      p.next := null;
      last := p;
      size := rest;
      spine := spine[..rest];
      other.Repr := set i {:trigger other.spine[i]} | 0 <= i < |other.spine| :: other.spine[i];
      Repr := Repr - other.Repr;
    }

    /** bisect_list: the first half stays, the second, the smaller if any, becomes a list of its own. */
    method Bisect() returns (other: List<T>)
      requires Valid() && size >= 2
      modifies this, Repr
      ensures Valid() && other.Valid() && fresh(other) && Repr !! other.Repr && Repr + other.Repr <= old(Repr)
      ensures spine == old(spine)[..old(size) - old(size) / 2] && other.spine == old(spine)[old(size) - old(size) / 2..]
      ensures Contents() == old(Contents())[..old(size) - old(size) / 2]
      ensures other.Contents() == old(Contents())[old(size) - old(size) / 2..]
    {
      var n := size;
      var half := n / 2;
      var rest := n - half;
      var p := ElemAt(rest - 1);
      other := new List();
      CutInto(other, p, rest);
    }

    /** reverse_list: every link is turned round. */
    method Reverse()
      requires Valid()
      modifies this, Repr
      ensures Valid() && Repr == old(Repr) && Contents() == Reversed(old(Contents()))
    {
      ghost var all := spine;
      ghost var n := 0;
      var r, b: Elem?<T> := start, null;
      last := r;
      while r != null
        invariant n <= |all| && all == old(spine) == spine && r == HeadOf(all[n..]) && b == LastOf(all[..n])
        invariant forall i {:trigger all[i].next} :: 0 <= i < n ==> all[i].next == if i > 0 then all[i - 1] else null
        invariant forall i {:trigger all[i].next} :: n <= i < |all| ==> all[i].next == if i + 1 < |all| then all[i + 1] else null
        invariant forall i {:trigger all[i].cont} :: 0 <= i < |all| ==> all[i].cont == old(all[i].cont)
        invariant last == HeadOf(all) && size == |all| && Repr == old(Repr)
        decreases |all| - n
      {
        var save := r;
        r := r.next;
        save.next := b;
        b := save;
        n := n + 1;
      }
      start := b;
      spine := Reversed(all);
    }

    /** in_list with the given test */
    method Present(x: T, eq: (T, T) -> bool) returns (found: bool)
      requires Valid()
      ensures found <==> exists i :: 0 <= i < |Contents()| && eq(x, Contents()[i])
    {
      var e := start;
      ghost var n := 0;
      while e != null
        invariant n <= |spine| && e == HeadOf(spine[n..])
        invariant forall i :: 0 <= i < n ==> !eq(x, Contents()[i])
        decreases |spine| - n
      {
        if eq(x, e.cont) {
          assert eq(x, Contents()[n]);
          return true;
        }
        e := e.next;
        n := n + 1;
      }
      return false;
    }
  }

  function Reversed<T>(s: seq<T>): (r: seq<T>)
    ensures |r| == |s| && forall i {:trigger r[i]} :: 0 <= i < |s| ==> r[i] == s[|s| - 1 - i]
  {
    if s == [] then [] else Reversed(s[1..]) + [s[0]]
  }
}
