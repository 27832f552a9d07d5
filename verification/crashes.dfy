/** What a disk with a write cache may hold after a stop: any subset of the
    sector writes since the last flush may be lost. */
module Crashes {
  import opened Blocks

  /** `e` may be on the disk after the events `w` and a stop. */
  ghost predicate Survives(d: Image, w: seq<Event>, e: Image) {
    if w == [] then e == d
    else
      var front, last := w[..|w| - 1], w[|w| - 1];
      if last.Barrier? then e == Replay(d, front)
      else Survives(d, front, e) || exists f :: Survives(d, front, f) && e == Apply(f, last)
  }

  /** Nothing lost is one of the possibilities. */
  lemma {:induction false} SurvivesWhole(d: Image, w: seq<Event>)
    ensures Survives(d, w, Replay(d, w))
  {
    if w != [] {
      SurvivesWhole(d, w[..|w| - 1]);
    }
  }

  ghost predicate NoBarrier(w: seq<Event>) {
    forall i | 0 <= i < |w| :: w[i].Put?
  }

  /** Once a flush completed, all that came before it is there. */
  lemma {:induction false} SurvivesAfter(d: Image, a: seq<Event>, b: seq<Event>, e: Image)
    requires NoBarrier(b) && Survives(d, a + [Barrier] + b, e)
    ensures Survives(Replay(d, a), b, e)
  {
    var w := a + [Barrier] + b;
    if b == [] {
      assert w[..|w| - 1] == a;
    } else {
      var n := |b| - 1;
      assert w[..|w| - 1] == a + [Barrier] + b[..n] && w[|w| - 1] == b[n];
      if Survives(d, a + [Barrier] + b[..n], e) {
        SurvivesAfter(d, a, b[..n], e);
      } else {
        var f :| Survives(d, a + [Barrier] + b[..n], f) && e == Apply(f, b[n]);
        SurvivesAfter(d, a, b[..n], f);
      }
    }
  }

  /** Writes that end with a flush are all there, whatever comes after them. */
  lemma {:induction false} SurvivesPast(d: Image, a: seq<Event>, b: seq<Event>, e: Image)
    requires (a != [] ==> a[|a| - 1] == Barrier) && Survives(d, a + b, e)
    ensures Survives(Replay(d, a), b, e)
  {
    var w := a + b;
    if b == [] {
      assert w == a;
      if a != [] {
        assert Replay(d, a) == Apply(Replay(d, a[..|a| - 1]), Barrier);
      }
    } else {
      var n := |b| - 1;
      assert w[..|w| - 1] == a + b[..n] && w[|w| - 1] == b[n];
      ReplayConcat(d, a, b[..n]);
      if b[n].Barrier? {
      } else if Survives(d, a + b[..n], e) {
        SurvivesPast(d, a, b[..n], e);
      } else {
        var f :| Survives(d, a + b[..n], f) && e == Apply(f, b[n]);
        SurvivesPast(d, a, b[..n], f);
      }
    }
  }

  /** Each of the sectors is as it was or as it was to be, no other one moved. */
  ghost predicate Mixed(d: Image, lbas: seq<nat>, data: seq<Sector>, e: Image)
    requires |lbas| == |data|
  {
    && |e| == |d|
    && (forall s | 0 <= s < |d| && s !in lbas :: e[s] == d[s])
    && (forall i | 0 <= i < |lbas| && lbas[i] < |d| :: e[lbas[i]] == d[lbas[i]] || e[lbas[i]] == data[i])
  }

  /** Whatever was lost of some writes to different sectors, what is left is a
      mixture of old and new sectors. */
  lemma {:induction false} SurvivesMixed(d: Image, lbas: seq<nat>, data: seq<Sector>, k: nat, e: Image)
    requires |lbas| == |data| && Distinct(lbas) && k <= |lbas| && Survives(d, Puts(lbas, data)[..k], e)
    ensures Mixed(d, lbas, data, e)
  {
    hide Distinct;
    if k > 0 {
      var w := Puts(lbas, data);
      assert w[..k][..k - 1] == w[..k - 1] && w[..k][k - 1] == Put(lbas[k - 1], data[k - 1]);
      if Survives(d, w[..k - 1], e) {
        SurvivesMixed(d, lbas, data, k - 1, e);
      } else {
        var f :| Survives(d, w[..k - 1], f) && e == Apply(f, w[k - 1]);
        SurvivesMixed(d, lbas, data, k - 1, f);
        MixedPut(d, lbas, data, k - 1, f);
      }
    }
  }

  lemma MixedPut(d: Image, lbas: seq<nat>, data: seq<Sector>, k: nat, e: Image)
    requires |lbas| == |data| && Distinct(lbas) && k < |lbas| && Mixed(d, lbas, data, e)
    ensures Mixed(d, lbas, data, Apply(e, Put(lbas[k], data[k])))
  {
    assert lbas[k] in lbas;
  }
}
