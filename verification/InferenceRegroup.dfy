/** Regrouping the requests of all hosts by model, each model sorted by duration. */
module InferenceRegroup {
  import opened InferenceData
  import opened NwayMerge

  /** Requests are compared by their timing alone. */
  function ByTiming(cmp: (Timing, Timing) -> bool): (Request, Request) -> bool {
    (a: Request, b: Request) => cmp(a.timing, b.timing)
  }

  /** The requests a regrouping puts under one model. Without any model names every
      request belongs to model zero; otherwise one without a model belongs to none. */
  predicate BelongsTo(r: Request, model: nat, ids: seq<string>) {
    if ids == [] then model == 0 else r.modelIdIndex == model
  }

  function Select(requests: seq<Request>, model: nat, ids: seq<string>): seq<Request> {
    if requests == [] then []
    else
      var front, last := Select(requests[..|requests| - 1], model, ids), requests[|requests| - 1];
      if BelongsTo(last, model, ids) then front + [last] else front
  }

  function SelectAll(hosts: seq<seq<Request>>, model: nat, ids: seq<string>): (r: seq<seq<Request>>)
    ensures |r| == |hosts| && forall h :: 0 <= h < |hosts| ==> r[h] == Select(hosts[h], model, ids)
  {
    seq(|hosts|, h requires 0 <= h < |hosts| => Select(hosts[h], model, ids))
  }

  lemma {:induction false} SelectFrom(requests: seq<Request>, model: nat, ids: seq<string>, r: Request)
    ensures r in Select(requests, model, ids) <==> r in requests && BelongsTo(r, model, ids)
    decreases |requests|
  {
    if requests != [] {
      var n := |requests| - 1;
      assert requests == requests[..n] + [requests[n]];
      SelectFrom(requests[..n], model, ids, r);
    }
  }

  /** Selecting from a sorted list leaves it sorted. */
  lemma {:induction false} SelectKeepsOrder(requests: seq<Request>, model: nat, ids: seq<string>,
                                            cmp: (Request, Request) -> bool)
    requires Sorted(requests, cmp)
    ensures Sorted(Select(requests, model, ids), cmp)
    decreases |requests|
  {
    if requests != [] {
      var n := |requests| - 1;
      var front := Select(requests[..n], model, ids);
      SelectKeepsOrder(requests[..n], model, ids, cmp);
      forall i | 0 <= i < |front| ensures !cmp(requests[n], front[i]) {
        SelectFrom(requests[..n], model, ids, front[i]);
        var k :| 0 <= k < n && requests[k] == front[i];
      }
    }
  }

  lemma ByTimingIsOrder(cmp: (Timing, Timing) -> bool)
    requires StrictWeakOrder(cmp)
    ensures StrictWeakOrder(ByTiming(cmp))
  {
    forall x: Request, y: Request | ByTiming(cmp)(x, y) ensures !ByTiming(cmp)(y, x) {
      assert cmp(x.timing, y.timing) ==> !cmp(y.timing, x.timing);
    }
    forall x: Request, y: Request, z: Request | ByTiming(cmp)(x, z) ensures ByTiming(cmp)(x, y) || ByTiming(cmp)(y, z) {
      assert cmp(x.timing, z.timing) ==> cmp(x.timing, y.timing) || cmp(y.timing, z.timing);
    }
  }

  /** One sorted list per model, holding exactly that model's requests of all hosts. */
  ghost predicate IsRegrouped(byModel: seq<seq<Request>>, hosts: seq<seq<Request>>, ids: seq<string>,
                              cmp: (Timing, Timing) -> bool) {
    && |byModel| == (if ids == [] then 1 else |ids|)
    && forall m :: 0 <= m < |byModel| ==>
         && Sorted(byModel[m], ByTiming(cmp))
         && IsInterleaving(byModel[m], SelectAll(hosts, m, ids))
  }

  /** Groups first by model and host, then merges the hosts of each model. */
  method RegroupDataByModelId(ids: seq<string>, hosts: seq<seq<Request>>, cmp: (Timing, Timing) -> bool)
    returns (byModel: seq<seq<Request>>)
    requires StrictWeakOrder(cmp) && forall h :: h in hosts ==> Sorted(h, ByTiming(cmp))
    requires ids != [] ==> forall h, r :: h in hosts && r in h ==> ValidModelIndex(r.modelIdIndex, ids)
    ensures IsRegrouped(byModel, hosts, ids, cmp)
  {
    var modelCount := if |ids| == 0 then 1 else |ids|;
    var grouped: seq<seq<seq<Request>>> := seq(modelCount, m => []);
    for h := 0 to |hosts|
      invariant |grouped| == modelCount
      invariant forall m :: 0 <= m < modelCount ==> grouped[m] == SelectAll(hosts[..h], m, ids)
    {
      assert hosts[h] in hosts;
      var own := GroupHost(ids, hosts[h], modelCount);
      grouped := seq(modelCount, m requires 0 <= m < modelCount => grouped[m] + [own[m]]);
      forall m | 0 <= m < modelCount ensures grouped[m] == SelectAll(hosts[..h + 1], m, ids) {
        assert hosts[..h + 1] == hosts[..h] + [hosts[h]];
      }
    }
    assert hosts[..|hosts|] == hosts;
    ByTimingIsOrder(cmp);
    byModel := [];
    for m := 0 to modelCount
      invariant |byModel| == m
      invariant forall k :: 0 <= k < m ==>
                  Sorted(byModel[k], ByTiming(cmp)) && IsInterleaving(byModel[k], SelectAll(hosts, k, ids))
    {
      forall s | s in grouped[m] ensures Sorted(s, ByTiming(cmp)) {
        var h :| 0 <= h < |hosts| && grouped[m][h] == s;
        assert hosts[h] in hosts;
        SelectKeepsOrder(hosts[h], m, ids, ByTiming(cmp));
      }
      var merged := Merge(grouped[m], ByTiming(cmp));
      byModel := byModel + [merged];
    }
  }

  /** Distributes one host's requests over the models. */
  method GroupHost(ids: seq<string>, requests: seq<Request>, modelCount: nat) returns (own: seq<seq<Request>>)
    requires modelCount == if ids == [] then 1 else |ids|
    requires ids != [] ==> forall r :: r in requests ==> ValidModelIndex(r.modelIdIndex, ids)
    ensures |own| == modelCount && forall m :: 0 <= m < modelCount ==> own[m] == Select(requests, m, ids)
  {
    own := seq(modelCount, m => []);
    for i := 0 to |requests|
      invariant |own| == modelCount
      invariant forall m :: 0 <= m < modelCount ==> own[m] == Select(requests[..i], m, ids)
    {
      var r := requests[i];
      assert r in requests && requests[..i + 1][..i] == requests[..i];
      var index := if |ids| == 0 then 0 else r.modelIdIndex;
      if index == -1 { continue; }
      own := own[index := own[index] + [r]];
    }
    assert requests[..|requests|] == requests;
  }
}
