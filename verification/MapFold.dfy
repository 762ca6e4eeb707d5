// Updating the entries of a map one after the other, each at most once.
module MapFold {

  ghost predicate Distinct(ids: seq<string>) {
    forall k, l :: 0 <= k < l < |ids| ==> ids[k] != ids[l]
  }

  // m after upd(0, .), ..., upd(k - 1, .) were applied at ids[0], ..., ids[k - 1].
  ghost function UpdateAll<T>(m: map<string, T>, ids: seq<string>, upd: (nat, T) -> T, k: nat): (r: map<string, T>)
    requires k <= |ids| && forall a :: 0 <= a < |ids| ==> ids[a] in m
    ensures r.Keys == m.Keys
  {
    if k == 0 then m
    else
      var before := UpdateAll(m, ids, upd, k - 1);
      before[ids[k - 1] := upd(k - 1, before[ids[k - 1]])]
  }

  lemma {:induction false} UpdateAllOthers<T>(m: map<string, T>, ids: seq<string>, upd: (nat, T) -> T, k: nat,
                                              id: string)
    requires k <= |ids| && (forall a :: 0 <= a < |ids| ==> ids[a] in m)
    requires id in m && forall a :: 0 <= a < k ==> ids[a] != id
    ensures UpdateAll(m, ids, upd, k)[id] == m[id]
  {
    if k == 0 {
    } else {
      UpdateAllOthers(m, ids, upd, k - 1, id);
    }
  }

  lemma {:induction false} UpdateAllOnce<T>(m: map<string, T>, ids: seq<string>, upd: (nat, T) -> T, k: nat, a: nat)
    requires k <= |ids| && (forall c :: 0 <= c < |ids| ==> ids[c] in m) && Distinct(ids) && a < k
    ensures UpdateAll(m, ids, upd, k)[ids[a]] == upd(a, m[ids[a]])
  {
    if a == k - 1 {
      UpdateAllOthers(m, ids, upd, a, ids[a]);
    } else {
      UpdateAllOnce(m, ids, upd, k - 1, a);
    }
  }

  // What every update keeps, all of them keep.
  lemma {:induction false} UpdateAllKeeps<T(!new)>(m: map<string, T>, ids: seq<string>, upd: (nat, T) -> T, k: nat,
                                             p: (string, T) -> bool)
    requires k <= |ids| && forall a :: 0 <= a < |ids| ==> ids[a] in m
    requires forall id :: id in m ==> p(id, m[id])
    requires forall a: nat, t: T :: a < |ids| && p(ids[a], t) ==> p(ids[a], upd(a, t))
    ensures forall id :: id in m ==> p(id, UpdateAll(m, ids, upd, k)[id])
  {
    if k == 0 {
    } else {
      UpdateAllKeeps(m, ids, upd, k - 1, p);
      var a: nat := k - 1;
      var t := UpdateAll(m, ids, upd, a)[ids[a]];
      assert p(ids[a], t);
      assert p(ids[a], upd(a, t));
    }
  }

  // s after step(0, .), ..., step(k - 1, .).
  ghost function Repeat<S>(s: S, step: (nat, S) -> S, k: nat): S {
    if k == 0 then s else step(k - 1, Repeat(s, step, k - 1))
  }

  lemma {:induction false} RepeatKeeps<S(!new)>(s: S, step: (nat, S) -> S, k: nat, p: (nat, S) -> bool)
    requires p(0, s)
    requires forall a: nat, t: S :: a < k && p(a, t) ==> p(a + 1, step(a, t))
    ensures p(k, Repeat(s, step, k))
  {
    if k == 0 {
    } else {
      RepeatKeeps(s, step, k - 1, p);
      var a: nat := k - 1;
      assert p(a, Repeat(s, step, a));
    }
  }
}
