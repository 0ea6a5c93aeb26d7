/**
 * The diff rule shared by both passes of a reconciliation tick: walk a list in order and act
 * on an element exactly when its peer id is neither the caller's nor already tracked, where
 * "tracked" includes the peers acted on earlier in the same walk (each action registers its
 * peer before the next element is looked at).
 */
module Admission {
  import opened Messages

  /** The peer ids of `xs`, in order. */
  function Keys<X>(xs: seq<X>, key: X -> Id): (ks: seq<Id>)
  {
    seq(|xs|, i requires 0 <= i < |xs| => key(xs[i]))
  }

  predicate NoDup(s: seq<Id>)
  {
    forall i, j :: 0 <= i < j < |s| ==> s[i] != s[j]
  }

  /** The elements of `xs` acted on, in order, when `tracked` are tracked and `caller` is the client. */
  function Admitted<X>(tracked: seq<Id>, caller: Id, xs: seq<X>, key: X -> Id): (r: seq<X>)
    ensures |r| <= |xs|
    ensures forall x :: x in r ==> x in xs && key(x) != caller && key(x) !in tracked
  {
    if xs == [] then []
    else
      var done := Admitted(tracked, caller, xs[..|xs| - 1], key);
      var x := xs[|xs| - 1];
      if key(x) !in tracked + Keys(done, key) && key(x) != caller then done + [x] else done
  }

  lemma KeysSnoc<X>(xs: seq<X>, x: X, key: X -> Id)
    ensures Keys(xs + [x], key) == Keys(xs, key) + [key(x)]
  {
  }

  /** One more element of the walk is acted on exactly when it passes the guard. */
  lemma AdmittedSnoc<X>(tracked: seq<Id>, caller: Id, xs: seq<X>, x: X, key: X -> Id)
    ensures var done := Admitted(tracked, caller, xs, key);
      Admitted(tracked, caller, xs + [x], key) ==
        if key(x) !in tracked + Keys(done, key) && key(x) != caller then done + [x] else done
  {
    assert (xs + [x])[..|xs|] == xs;
  }

  /** The `k`-th acted-on element `r[k]` is listed in `xs` and passed the guard when its turn came. */
  ghost predicate Guarded<X>(tracked: seq<Id>, caller: Id, xs: seq<X>, r: seq<X>, key: X -> Id, k: int)
    requires 0 <= k < |r|
  {
    r[k] in xs && key(r[k]) != caller && key(r[k]) !in tracked + Keys(r[..k], key)
  }

  /**
   * Soundness: every element acted on comes from `xs`, and at the moment it is acted on its
   * peer is not the caller and not tracked, counting the peers acted on before it.
   */
  lemma {:induction false} AdmittedGuard<X>(tracked: seq<Id>, caller: Id, xs: seq<X>, key: X -> Id)
    ensures forall k :: 0 <= k < |Admitted(tracked, caller, xs, key)| ==>
      Guarded(tracked, caller, xs, Admitted(tracked, caller, xs, key), key, k)
  {
    if xs != [] {
      var xs' := xs[..|xs| - 1];
      var x := xs[|xs| - 1];
      var done := Admitted(tracked, caller, xs', key);
      AdmittedGuard(tracked, caller, xs', key);
      var r := Admitted(tracked, caller, xs, key);
      forall k | 0 <= k < |r|
        ensures Guarded(tracked, caller, xs, r, key, k)
      {
        if k < |done| {
          assert Guarded(tracked, caller, xs', done, key, k);
          assert r[k] == done[k] && r[..k] == done[..k];
          assert done[k] in xs';
        } else {
          assert r == done + [x];
          assert r[..k] == done;
        }
      }
    }
  }

  /** Completeness: every element whose peer is neither the caller nor tracked has its peer acted on. */
  lemma {:induction false} AdmittedComplete<X>(tracked: seq<Id>, caller: Id, xs: seq<X>, key: X -> Id)
    ensures forall x :: x in xs && key(x) != caller && key(x) !in tracked ==>
      key(x) in Keys(Admitted(tracked, caller, xs, key), key)
  {
    if xs != [] {
      var xs' := xs[..|xs| - 1];
      var done := Admitted(tracked, caller, xs', key);
      AdmittedComplete(tracked, caller, xs', key);
      var r := Admitted(tracked, caller, xs, key);
      assert r == done || r == done + [xs[|xs| - 1]];
      KeysSnoc(done, xs[|xs| - 1], key);
      forall x | x in xs && key(x) != caller && key(x) !in tracked
        ensures key(x) in Keys(r, key)
      {
        if x in xs' {
          assert key(x) in Keys(done, key);
        }
      }
    }
  }

  /** The positions in `xs` of the elements `Admitted` acts on, in order. */
  function AdmittedAt<X>(tracked: seq<Id>, caller: Id, xs: seq<X>, key: X -> Id): seq<int>
  {
    if xs == [] then []
    else
      var done := Admitted(tracked, caller, xs[..|xs| - 1], key);
      var x := xs[|xs| - 1];
      var at := AdmittedAt(tracked, caller, xs[..|xs| - 1], key);
      if key(x) !in tracked + Keys(done, key) && key(x) != caller then at + [|xs| - 1] else at
  }

  /**
   * `r` is `xs` at the strictly increasing positions `js`, and no element listed before
   * `r[k]` has its peer unless that peer is the caller or tracked.
   */
  ghost predicate FirstListed<X>(tracked: seq<Id>, caller: Id, xs: seq<X>, r: seq<X>, js: seq<int>, key: X -> Id)
  {
    && |js| == |r|
    && (forall k :: 0 <= k < |r| ==> 0 <= js[k] < |xs| && xs[js[k]] == r[k])
    && (forall k1, k2 :: 0 <= k1 < k2 < |js| ==> js[k1] < js[k2])
    && (forall k, i :: 0 <= k < |r| && 0 <= i < js[k] && i < |xs| ==>
          key(xs[i]) != key(r[k]) || key(xs[i]) == caller || key(xs[i]) in tracked)
  }

  /**
   * Order: the walk acts on elements at strictly increasing positions of `xs`, and each
   * acted-on element is the first one listed for its peer among those whose peer is neither
   * the caller nor tracked. So of several offers from one initiator, the first is answered.
   */
  lemma {:induction false} AdmittedFirst<X>(tracked: seq<Id>, caller: Id, xs: seq<X>, key: X -> Id)
    ensures FirstListed(tracked, caller, xs, Admitted(tracked, caller, xs, key), AdmittedAt(tracked, caller, xs, key), key)
  {
    if xs != [] {
      var n := |xs| - 1;
      var xs' := xs[..n];
      var x := xs[n];
      var done := Admitted(tracked, caller, xs', key);
      var at := AdmittedAt(tracked, caller, xs', key);
      var r, js := Admitted(tracked, caller, xs, key), AdmittedAt(tracked, caller, xs, key);
      AdmittedFirst(tracked, caller, xs', key);
      assert FirstListed(tracked, caller, xs', done, at, key);
      assert forall i :: 0 <= i < n ==> xs[i] == xs'[i];
      if key(x) !in tracked + Keys(done, key) && key(x) != caller {
        assert r == done + [x] && js == at + [n];
        AdmittedComplete(tracked, caller, xs', key);
        forall i | 0 <= i < n
          ensures key(xs[i]) != key(x) || key(xs[i]) == caller || key(xs[i]) in tracked
        {
          assert xs'[i] in xs';
        }
        forall k | 0 <= k < |r|
          ensures 0 <= js[k] < |xs| && xs[js[k]] == r[k]
        {
          if k < |done| {
            assert js[k] == at[k] && r[k] == done[k];
          }
        }
        forall k1, k2 | 0 <= k1 < k2 < |js|
          ensures js[k1] < js[k2]
        {
          if k2 < |at| {
            assert js[k1] == at[k1] && js[k2] == at[k2];
          } else {
            assert js[k1] == at[k1];
          }
        }
        forall k, i | 0 <= k < |r| && 0 <= i < js[k] && i < |xs|
          ensures key(xs[i]) != key(r[k]) || key(xs[i]) == caller || key(xs[i]) in tracked
        {
          if k < |done| {
            assert js[k] == at[k] && r[k] == done[k];
          }
        }
      } else {
        assert r == done && js == at;
      }
    }
  }

  /** The peers acted on are exactly the listed peers minus the caller minus the tracked ones. */
  lemma AdmittedKeys<X>(tracked: seq<Id>, caller: Id, xs: seq<X>, key: X -> Id, id: Id)
    ensures id in Keys(Admitted(tracked, caller, xs, key), key) <==>
      id in Keys(xs, key) && id != caller && id !in tracked
  {
    AdmittedGuard(tracked, caller, xs, key);
    AdmittedComplete(tracked, caller, xs, key);
    var r := Admitted(tracked, caller, xs, key);
    if id in Keys(r, key) {
      var k :| 0 <= k < |r| && Keys(r, key)[k] == id;
      assert Guarded(tracked, caller, xs, r, key, k);
      var j :| 0 <= j < |xs| && xs[j] == r[k];
      assert Keys(xs, key)[j] == id;
    }
    if id in Keys(xs, key) && id != caller && id !in tracked {
      var j :| 0 <= j < |xs| && Keys(xs, key)[j] == id;
      assert xs[j] in xs && key(xs[j]) == id;
    }
  }

  /**
   * `ids` are the peers of a sequence of actions each of which was allowed when it was taken:
   * not the caller, not tracked, and not engaged by an earlier action of the sequence.
   */
  ghost predicate FreshSteps(tracked: seq<Id>, caller: Id, ids: seq<Id>)
  {
    forall k :: 0 <= k < |ids| ==> ids[k] != caller && ids[k] !in tracked + ids[..k]
  }

  lemma AdmittedFresh<X>(tracked: seq<Id>, caller: Id, xs: seq<X>, key: X -> Id)
    ensures FreshSteps(tracked, caller, Keys(Admitted(tracked, caller, xs, key), key))
  {
    AdmittedGuard(tracked, caller, xs, key);
    var r := Admitted(tracked, caller, xs, key);
    var ks := Keys(r, key);
    forall k | 0 <= k < |ks|
      ensures ks[k] != caller && ks[k] !in tracked + ks[..k]
    {
      assert Guarded(tracked, caller, xs, r, key, k);
      assert ks[..k] == Keys(r[..k], key);
    }
  }

  /** Two allowed sequences in a row, the second judged against what the first registered. */
  lemma FreshAppend(tracked: seq<Id>, caller: Id, a: seq<Id>, b: seq<Id>)
    requires FreshSteps(tracked, caller, a) && FreshSteps(tracked + a, caller, b)
    ensures FreshSteps(tracked, caller, a + b)
  {
  }

  /** At most one action per peer: distinct tracked ids stay distinct once the new peers are added. */
  lemma FreshDistinct(tracked: seq<Id>, caller: Id, ids: seq<Id>)
    requires FreshSteps(tracked, caller, ids) && NoDup(tracked)
    ensures NoDup(tracked + ids)
  {
  }

  /** Nothing is acted on when every listed peer is the caller or already tracked. */
  lemma {:induction false} AdmittedNone<X>(tracked: seq<Id>, caller: Id, xs: seq<X>, key: X -> Id)
    requires forall x :: x in xs ==> key(x) == caller || key(x) in tracked
    ensures Admitted(tracked, caller, xs, key) == []
  {
    if xs != [] {
      var xs' := xs[..|xs| - 1];
      assert forall x :: x in xs' ==> x in xs;
      AdmittedNone(tracked, caller, xs', key);
      assert xs[|xs| - 1] in xs;
    }
  }
}
