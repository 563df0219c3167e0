/** The panel walk shared by the blocked drivers: `for k = 0; k < len; k += bsize`
    with a panel of width `nb = Min(bsize, len - k)` at each step. */
module Blocking {

  /** One panel: the index range [k, k + nb). */
  datatype Panel = Panel(k: nat, nb: nat)

  function Min(a: int, b: int): int {
    if a <= b then a else b
  }

  /** j lies in panel p. */
  predicate Contains(p: Panel, j: int) {
    p.k <= j < p.k + p.nb
  }

  /** The panels a driver visits, in order, when its loop starts at k. */
  function PanelsFrom(k: nat, len: nat, bsize: nat): (ps: seq<Panel>)
    requires bsize >= 1
    ensures k >= len <==> ps == []
    ensures k < len ==> ps[0] == Panel(k, Min(bsize, len - k))
    ensures forall i :: 0 <= i < |ps| ==>
      k <= ps[i].k && 1 <= ps[i].nb == Min(bsize, len - ps[i].k) && ps[i].k + ps[i].nb <= len
    decreases len - k
  {
    if k >= len then []
    else [Panel(k, Min(bsize, len - k))] + PanelsFrom(k + bsize, len, bsize)
  }

  /** The panels of `for k = 0; k < len; k += bsize`. */
  function Panels(len: nat, bsize: nat): (ps: seq<Panel>)
    requires bsize >= 1
  {
    PanelsFrom(0, len, bsize)
  }

  /** Each panel of ps ends before the next ones start. */
  predicate Ordered(ps: seq<Panel>) {
    forall i, i' :: 0 <= i < i' < |ps| ==> ps[i].k + ps[i].nb <= ps[i'].k
  }

  /** The panels visited from k come in order, each ending before the next starts. */
  lemma {:induction false} PanelsFromOrdered(k: nat, len: nat, bsize: nat)
    requires bsize >= 1
    ensures Ordered(PanelsFrom(k, len, bsize))
    decreases len - k
  {
    if k < len {
      var ps := PanelsFrom(k, len, bsize);
      var rest := PanelsFrom(k + bsize, len, bsize);
      assert ps == [Panel(k, Min(bsize, len - k))] + rest;
      PanelsFromOrdered(k + bsize, len, bsize);
      forall i, i' | 0 <= i < i' < |ps|
        ensures ps[i].k + ps[i].nb <= ps[i'].k
      {
        var x := rest[i' - 1];
        assert ps[i'] == x;
        if i == 0 {
          assert k + bsize <= x.k;
        } else {
          var y := rest[i - 1];
          assert ps[i] == y;
          assert y.k + y.nb <= x.k;
        }
      }
    }
  }

  /** Some panel of ps contains j. */
  predicate InSomePanel(ps: seq<Panel>, j: int) {
    exists i :: 0 <= i < |ps| && Contains(ps[i], j)
  }

  /** Every index in [k, len) lies in one of the panels visited from k. */
  lemma {:induction false} PanelsFromReach(k: nat, len: nat, bsize: nat, j: int) returns (i: nat)
    requires bsize >= 1 && k <= j < len
    ensures i < |PanelsFrom(k, len, bsize)| && Contains(PanelsFrom(k, len, bsize)[i], j)
    decreases len - k
  {
    var ps := PanelsFrom(k, len, bsize);
    var rest := PanelsFrom(k + bsize, len, bsize);
    assert ps == [Panel(k, Min(bsize, len - k))] + rest;
    if j < k + ps[0].nb {
      i := 0;
    } else {
      var i0 := PanelsFromReach(k + bsize, len, bsize, j);
      i := i0 + 1;
      assert ps[i] == rest[i0];
    }
  }

  /** Every index in [k, len) lies in exactly one of the panels visited from k,
      the i-th one. */
  lemma PanelsPartition(k: nat, len: nat, bsize: nat, j: int) returns (i: nat)
    requires bsize >= 1 && k <= j < len
    ensures i < |PanelsFrom(k, len, bsize)| && Contains(PanelsFrom(k, len, bsize)[i], j)
    ensures forall i' :: 0 <= i' < |PanelsFrom(k, len, bsize)| && Contains(PanelsFrom(k, len, bsize)[i'], j) ==> i' == i
  {
    var ps := PanelsFrom(k, len, bsize);
    i := PanelsFromReach(k, len, bsize, j);
    PanelsFromOrdered(k, len, bsize);
  }

  /** The panels visited from 0 cover [0, len), and no index lies in two of them. */
  lemma PanelsCover(len: nat, bsize: nat)
    requires bsize >= 1
    ensures forall j :: 0 <= j < len ==> InSomePanel(Panels(len, bsize), j)
    ensures forall j, i, i' ::
      (0 <= i < |Panels(len, bsize)| && 0 <= i' < |Panels(len, bsize)| &&
       Contains(Panels(len, bsize)[i], j) && Contains(Panels(len, bsize)[i'], j)) ==> i == i'
  {
    forall j | 0 <= j < len
      ensures InSomePanel(Panels(len, bsize), j)
    {
      var i := PanelsPartition(0, len, bsize, j);
    }
    forall j, i, i' | 0 <= i < |Panels(len, bsize)| && 0 <= i' < |Panels(len, bsize)| &&
                      Contains(Panels(len, bsize)[i], j) && Contains(Panels(len, bsize)[i'], j)
      ensures i == i'
    {
      var x := PanelsPartition(0, len, bsize, j);
    }
  }
}
