/** Adapter labels on model server Pods (internal/modelcontroller/adapters.go).  A label
    records that an adapter is loaded, with the hash of the URL it was loaded from. */
module Adapters {
  datatype Adapter = Adapter(name: string, url: string)

  type Labels = map<string, string>

  /** StringHash; never the empty string. */
  type UrlHash = string -> string

  const PREFIX := "adapter.kubeai.org/"
  const ENGINE_LABEL := "app.kubernetes.io/name"

  function LabelKey(name: string): string { PREFIX + name }

  predicate IsAdapterKey(key: string) { PREFIX <= key }

  /** The names of the adapters that the labels say are loaded. */
  function LabelledAdapters(labels: Labels): set<string> {
    set key | key in labels && IsAdapterKey(key) :: key[|PREFIX|..]
  }

  /** A missing label reads as the empty string. */
  function GetLabel(labels: Labels, key: string): string { if key in labels then labels[key] else "" }

  predicate Matches(labels: Labels, a: Adapter, hash: UrlHash) { GetLabel(labels, LabelKey(a.name)) == hash(a.url) }

  /** The adapters to load, in order. */
  function ToEnsure(labels: Labels, adapters: seq<Adapter>, hash: UrlHash): seq<Adapter> {
    if adapters == [] then []
    else
      var a := adapters[|adapters| - 1];
      ToEnsure(labels, adapters[..|adapters| - 1], hash) + if Matches(labels, a, hash) then [] else [a]
  }

  /** The labelled adapters no listed adapter matches. */
  function ToRemove(labels: Labels, adapters: seq<Adapter>, hash: UrlHash): set<string> {
    set n | n in LabelledAdapters(labels) && forall a :: a in adapters && a.name == n ==> !Matches(labels, a, hash)
  }

  function EnsureAll(labels: Labels, list: seq<Adapter>, hash: UrlHash): Labels {
    if list == [] then labels
    else
      var a := list[|list| - 1];
      EnsureAll(labels, list[..|list| - 1], hash)[LabelKey(a.name) := hash(a.url)]
  }

  function RemoveAll(labels: Labels, names: set<string>): Labels { labels - set n | n in names :: LabelKey(n) }

  /** The labels after one pass without errors: first all loads, then all unloads. */
  function Pass(labels: Labels, adapters: seq<Adapter>, hash: UrlHash): Labels {
    RemoveAll(EnsureAll(labels, ToEnsure(labels, adapters, hash), hash), ToRemove(labels, adapters, hash))
  }

  // ----- what a pass does to one label

  ghost predicate HashesNonEmpty(hash: UrlHash) { forall url :: hash(url) != "" }

  /** No name is listed with two different hashes. */
  ghost predicate NoConflict(adapters: seq<Adapter>, hash: UrlHash) {
    forall a, b :: a in adapters && b in adapters && a.name == b.name ==> hash(a.url) == hash(b.url)
  }

  /** The adapter labels are exactly name to hash of URL, one for each listed adapter. */
  ghost predicate Converged(labels: Labels, adapters: seq<Adapter>, hash: UrlHash) {
    && (forall a :: a in adapters ==> LabelKey(a.name) in labels && labels[LabelKey(a.name)] == hash(a.url))
    && (forall n :: n in LabelledAdapters(labels) ==> exists a :: a in adapters && a.name == n)
  }

  lemma KeysAreInjective(m: string, n: string)
    ensures LabelKey(m) == LabelKey(n) ==> m == n
    ensures IsAdapterKey(LabelKey(n)) && LabelKey(n)[|PREFIX|..] == n
  {
    assert LabelKey(m)[|PREFIX|..] == m && LabelKey(n)[|PREFIX|..] == n;
  }

  lemma LabelledIff(labels: Labels, n: string)
    ensures n in LabelledAdapters(labels) <==> LabelKey(n) in labels
  {
    KeysAreInjective(n, n);
    if n in LabelledAdapters(labels) {
      var key :| key in labels && IsAdapterKey(key) && key[|PREFIX|..] == n;
      assert key == LabelKey(n);
    }
  }

  lemma {:induction false} ToEnsureMembers(labels: Labels, adapters: seq<Adapter>, hash: UrlHash, a: Adapter)
    ensures a in ToEnsure(labels, adapters, hash) <==> a in adapters && !Matches(labels, a, hash)
  {
    if adapters != [] {
      ToEnsureMembers(labels, adapters[..|adapters| - 1], hash, a);
      assert adapters == adapters[..|adapters| - 1] + [adapters[|adapters| - 1]];
    }
  }

  lemma {:induction false} EnsureOther(labels: Labels, list: seq<Adapter>, hash: UrlHash, key: string)
    requires forall a :: a in list ==> LabelKey(a.name) != key
    ensures key in EnsureAll(labels, list, hash) <==> key in labels
    ensures key in labels ==> EnsureAll(labels, list, hash)[key] == labels[key]
  {
    if list != [] { EnsureOther(labels, list[..|list| - 1], hash, key); }
  }

  /** The last listed adapter of a name decides its label. */
  lemma {:induction false} EnsureListed(labels: Labels, list: seq<Adapter>, hash: UrlHash, n: string) returns (a: Adapter)
    requires exists b :: b in list && b.name == n
    ensures a in list && a.name == n
    ensures LabelKey(n) in EnsureAll(labels, list, hash) && EnsureAll(labels, list, hash)[LabelKey(n)] == hash(a.url)
  {
    var last, front := list[|list| - 1], list[..|list| - 1];
    assert list == front + [last];
    if last.name == n {
      a := last;
    } else {
      a := EnsureListed(labels, front, hash, n);
      KeysAreInjective(last.name, n);
    }
  }

  lemma RemovedIff(labels: Labels, names: set<string>, n: string)
    ensures LabelKey(n) in RemoveAll(labels, names) <==> LabelKey(n) in labels && n !in names
    ensures LabelKey(n) in RemoveAll(labels, names) ==> RemoveAll(labels, names)[LabelKey(n)] == labels[LabelKey(n)]
  {
    if m :| m in names && LabelKey(m) == LabelKey(n) { KeysAreInjective(m, n); }
  }

  /** An unlisted adapter loses its label. */
  lemma PassUnlisted(labels: Labels, adapters: seq<Adapter>, hash: UrlHash, n: string)
    requires forall a :: a in adapters ==> a.name != n
    ensures LabelKey(n) !in Pass(labels, adapters, hash)
  {
    var list := ToEnsure(labels, adapters, hash);
    forall a | a in list ensures LabelKey(a.name) != LabelKey(n) {
      ToEnsureMembers(labels, adapters, hash, a);
      KeysAreInjective(a.name, n);
    }
    EnsureOther(labels, list, hash, LabelKey(n));
    LabelledIff(labels, n);
    RemovedIff(EnsureAll(labels, list, hash), ToRemove(labels, adapters, hash), n);
  }

  /** A listed adapter ends up labelled with its hash, except that one labelled with another
      hash, so one whose URL changed, ends the pass without a label. */
  lemma PassListed(labels: Labels, adapters: seq<Adapter>, hash: UrlHash, a: Adapter)
    requires a in adapters && NoConflict(adapters, hash) && HashesNonEmpty(hash)
    ensures var key, after := LabelKey(a.name), Pass(labels, adapters, hash);
            if key in labels && labels[key] != hash(a.url) then key !in after else key in after && after[key] == hash(a.url)
  {
    var key, list := LabelKey(a.name), ToEnsure(labels, adapters, hash);
    var ensured, removed := EnsureAll(labels, list, hash), ToRemove(labels, adapters, hash);
    LabelledIff(labels, a.name);
    assert a.name in removed <==> key in labels && labels[key] != hash(a.url);
    RemovedIff(ensured, removed, a.name);
    if Matches(labels, a, hash) {
      forall b | b in list ensures LabelKey(b.name) != key {
        ToEnsureMembers(labels, adapters, hash, b);
        KeysAreInjective(b.name, a.name);
      }
      EnsureOther(labels, list, hash, key);
    } else {
      ToEnsureMembers(labels, adapters, hash, a);
      var b := EnsureListed(labels, list, hash, a.name);
      ToEnsureMembers(labels, adapters, hash, b);
    }
  }

  // ----- convergence

  /** No labelled adapter has changed its URL. */
  ghost predicate NoneChanged(labels: Labels, adapters: seq<Adapter>, hash: UrlHash) {
    forall a :: a in adapters && LabelKey(a.name) in labels ==> labels[LabelKey(a.name)] == hash(a.url)
  }

  lemma NothingUnlistedLeft(labels: Labels, adapters: seq<Adapter>, hash: UrlHash)
    ensures forall n :: n in LabelledAdapters(Pass(labels, adapters, hash)) ==> exists a :: a in adapters && a.name == n
  {
    forall n | n in LabelledAdapters(Pass(labels, adapters, hash)) ensures exists a :: a in adapters && a.name == n {
      LabelledIff(Pass(labels, adapters, hash), n);
      if forall a :: a in adapters ==> a.name != n { PassUnlisted(labels, adapters, hash, n); }
    }
  }

  /** One pass converges exactly when no labelled adapter has changed its URL. */
  lemma OnePassConvergesIff(labels: Labels, adapters: seq<Adapter>, hash: UrlHash)
    requires NoConflict(adapters, hash) && HashesNonEmpty(hash)
    ensures Converged(Pass(labels, adapters, hash), adapters, hash) <==> NoneChanged(labels, adapters, hash)
  {
    hide Pass, LabelledAdapters;
    NothingUnlistedLeft(labels, adapters, hash);
    forall a | a in adapters
      ensures (LabelKey(a.name) in Pass(labels, adapters, hash) && Pass(labels, adapters, hash)[LabelKey(a.name)] == hash(a.url))
              <==> (LabelKey(a.name) in labels ==> labels[LabelKey(a.name)] == hash(a.url))
    {
      PassListed(labels, adapters, hash, a);
    }
  }

  /** A labelled adapter whose URL has changed is unlabelled by the pass, so one pass does not do. */
  lemma ChangedUrlExample() returns (labels: Labels, adapters: seq<Adapter>, hash: UrlHash)
    ensures NoConflict(adapters, hash) && HashesNonEmpty(hash) && !Converged(Pass(labels, adapters, hash), adapters, hash)
  {
    var a := Adapter("lora", "new");
    labels, adapters, hash := map[LabelKey("lora") := "old"], [a], url => url + "#";
    assert a in adapters && labels[LabelKey(a.name)] != hash(a.url);
    OnePassConvergesIff(labels, adapters, hash);
  }

  lemma PassLeavesNoneChanged(labels: Labels, adapters: seq<Adapter>, hash: UrlHash)
    requires NoConflict(adapters, hash) && HashesNonEmpty(hash)
    ensures NoneChanged(Pass(labels, adapters, hash), adapters, hash)
  {
    hide Pass;
    forall a | a in adapters && LabelKey(a.name) in Pass(labels, adapters, hash)
      ensures Pass(labels, adapters, hash)[LabelKey(a.name)] == hash(a.url)
    {
      PassListed(labels, adapters, hash, a);
    }
  }

  /** Converged, key by key: a label under "adapter.kubeai.org/" is there exactly for the listed
      adapters, and holds the hash of the URL. */
  lemma ConvergedInOwnTerms(labels: Labels, adapters: seq<Adapter>, hash: UrlHash)
    requires Converged(labels, adapters, hash)
    ensures forall a :: a in adapters ==>
              "adapter.kubeai.org/" + a.name in labels && labels["adapter.kubeai.org/" + a.name] == hash(a.url)
    ensures forall n :: "adapter.kubeai.org/" + n in labels ==> exists a :: a in adapters && a.name == n
  {
    forall n | "adapter.kubeai.org/" + n in labels ensures exists a :: a in adapters && a.name == n {
      assert LabelKey(n) in labels;
      LabelledIff(labels, n);
    }
    assert forall a :: a in adapters ==> LabelKey(a.name) == "adapter.kubeai.org/" + a.name;
  }

  /** From any labels, also those a failed pass left behind, two passes converge. */
  lemma TwoPassesConverge(labels: Labels, adapters: seq<Adapter>, hash: UrlHash)
    requires NoConflict(adapters, hash) && HashesNonEmpty(hash)
    ensures Converged(Pass(Pass(labels, adapters, hash), adapters, hash), adapters, hash)
  {
    hide Pass, NoneChanged;
    PassLeavesNoneChanged(labels, adapters, hash);
    OnePassConvergesIff(Pass(labels, adapters, hash), adapters, hash);
  }

  lemma ConvergedIsFixpoint(labels: Labels, adapters: seq<Adapter>, hash: UrlHash)
    requires Converged(labels, adapters, hash)
    ensures Pass(labels, adapters, hash) == labels
  {
    forall a ensures a !in ToEnsure(labels, adapters, hash) { ToEnsureMembers(labels, adapters, hash, a); }
    assert forall i :: 0 <= i < |ToEnsure(labels, adapters, hash)| ==> ToEnsure(labels, adapters, hash)[i] in ToEnsure(labels, adapters, hash);
    assert ToRemove(labels, adapters, hash) == {};
    assert RemoveAll(labels, {}) == labels;
  }

  /** Converged labels are exactly the fixpoints. */
  lemma FixpointIff(labels: Labels, adapters: seq<Adapter>, hash: UrlHash)
    requires NoConflict(adapters, hash) && HashesNonEmpty(hash)
    ensures Pass(labels, adapters, hash) == labels <==> Converged(labels, adapters, hash)
  {
    if Converged(labels, adapters, hash) {
      ConvergedIsFixpoint(labels, adapters, hash);
    } else if Pass(labels, adapters, hash) == labels {
      TwoPassesConverge(labels, adapters, hash);
    }
  }

  /** A name listed with two hashes keeps its label changing from pass to pass. */
  lemma ConflictNeverSettles(labels: Labels, adapters: seq<Adapter>, hash: UrlHash, a: Adapter, b: Adapter)
    requires a in adapters && b in adapters && a.name == b.name && hash(a.url) != hash(b.url) && HashesNonEmpty(hash)
    ensures Pass(labels, adapters, hash) != labels
  {
    var key, list := LabelKey(a.name), ToEnsure(labels, adapters, hash);
    var loser := if Matches(labels, a, hash) then b else a;
    ToEnsureMembers(labels, adapters, hash, loser);
    var last := EnsureListed(labels, list, hash, a.name);
    ToEnsureMembers(labels, adapters, hash, last);
    RemovedIff(EnsureAll(labels, list, hash), ToRemove(labels, adapters, hash), a.name);
    LabelledIff(labels, a.name);
  }

  /** Labels can come to rest exactly when no name is listed with two hashes. */
  lemma SettlesIff(adapters: seq<Adapter>, hash: UrlHash)
    requires HashesNonEmpty(hash)
    ensures (exists labels :: Pass(labels, adapters, hash) == labels) <==> NoConflict(adapters, hash)
  {
    if NoConflict(adapters, hash) {
      var labels := Pass(Pass(map[], adapters, hash), adapters, hash);
      TwoPassesConverge(map[], adapters, hash);
      ConvergedIsFixpoint(labels, adapters, hash);
      assert Pass(labels, adapters, hash) == labels;
    } else {
      var a, b :| a in adapters && b in adapters && a.name == b.name && hash(a.url) != hash(b.url);
      forall labels ensures Pass(labels, adapters, hash) != labels {
        ConflictNeverSettles(labels, adapters, hash, a, b);
      }
    }
  }

  // ----- the reconciliation itself

  /** Only vLLM servers load adapters. */
  predicate ServesVllm(labels: Labels) { GetLabel(labels, ENGINE_LABEL) == "vllm" }

  /** `Failed` stands for any call to a Pod or to the API server that returned an error. */
  datatype Outcome = Done | ReturnEarly | Failed

  ghost predicate SameOtherLabels(before: Labels, after: Labels) {
    forall key :: !("adapter.kubeai.org/" <= key) ==> (key in after <==> key in before) && (key in before ==> after[key] == before[key])
  }

  /** A Pod without labels is one whose labels are empty. */
  class ModelPod {
    var labels: Labels
    const loaderReady: bool

    constructor (labels: Labels, loaderReady: bool)
      ensures this.labels == labels && this.loaderReady == loaderReady
    {
      this.labels, this.loaderReady := labels, loaderReady;
    }

    /** Each load or unload is three calls: in the loader container, on the model server, and the
        label update.  The label changes only when all three succeed.  `budget` is the number of
        calls left that succeed. */
    method Apply(toEnsure: seq<Adapter>, toRemove: set<string>, hash: UrlHash, budget: nat) returns (ok: bool, left: nat)
      modifies this
      ensures ok <==> 3 * (|toEnsure| + |toRemove|) <= budget
      ensures ok ==> left == budget - 3 * (|toEnsure| + |toRemove|)
      ensures ok ==> labels == RemoveAll(EnsureAll(old(labels), toEnsure, hash), toRemove)
      ensures SameOtherLabels(old(labels), labels)
    {
      left := budget;
      var i := 0;
      while i < |toEnsure|
        invariant 0 <= i <= |toEnsure|
        invariant left == budget - 3 * i
        invariant labels == EnsureAll(old(labels), toEnsure[..i], hash)
        invariant SameOtherLabels(old(labels), labels)
      {
        if left < 3 { return false, 0; }
        left := left - 3;
        assert toEnsure[..i + 1][..i] == toEnsure[..i];
        KeysAreInjective(toEnsure[i].name, toEnsure[i].name);
        labels := labels[LabelKey(toEnsure[i].name) := hash(toEnsure[i].url)];
        i := i + 1;
      }
      assert toEnsure[..i] == toEnsure;
      ghost var ensured := labels;
      var todo := toRemove;
      while todo != {}
        invariant todo <= toRemove
        invariant left == budget - 3 * (|toEnsure| + |toRemove| - |todo|)
        invariant labels == RemoveAll(ensured, toRemove - todo)
        invariant SameOtherLabels(old(labels), labels)
        decreases todo
      {
        var n :| n in todo;
        assert |todo| >= 1 && |todo| <= |toRemove| by { SubsetSize(todo - {n}, todo); SubsetSize(todo, toRemove); }
        if left < 3 { return false, 0; }
        left := left - 3;
        KeysAreInjective(n, n);
        RemoveOneMore(ensured, toRemove - todo, n);
        assert toRemove - (todo - {n}) == (toRemove - todo) + {n};
        labels := labels - {LabelKey(n)};
        todo := todo - {n};
      }
      assert toRemove - todo == toRemove;
      ok := true;
    }
  }

  lemma SubsetSize(a: set<string>, b: set<string>)
    requires a <= b
    ensures |a| <= |b|
  {
    assert b == a + (b - a);
  }

  lemma RemoveOneMore(labels: Labels, names: set<string>, n: string)
    ensures RemoveAll(labels, names) - {LabelKey(n)} == RemoveAll(labels, names + {n})
  {
    assert (set m | m in names + {n} :: LabelKey(m)) == (set m | m in names :: LabelKey(m)) + {LabelKey(n)};
  }

  /** The labels the loop computes for removal: the labelled adapters less those that match. */
  method Candidates(labels: Labels, adapters: seq<Adapter>, hash: UrlHash) returns (toEnsure: seq<Adapter>, toRemove: set<string>)
    ensures toEnsure == ToEnsure(labels, adapters, hash) && toRemove == ToRemove(labels, adapters, hash)
  {
    toEnsure, toRemove := [], LabelledAdapters(labels);
    assert adapters[..0] == [];
    for i := 0 to |adapters|
      invariant toEnsure == ToEnsure(labels, adapters[..i], hash)
      invariant toRemove == ToRemove(labels, adapters[..i], hash)
    {
      assert adapters[..i + 1][..i] == adapters[..i] && adapters[..i + 1] == adapters[..i] + [adapters[i]];
      var a := adapters[i];
      if GetLabel(labels, LabelKey(a.name)) != hash(a.url) {
        toEnsure := toEnsure + [a];
      } else {
        toRemove := toRemove - {a.name};
      }
    }
    assert adapters[..|adapters|] == adapters;
  }

  /** What the pass must leave on a Pod. */
  function Target(labels: Labels, adapters: seq<Adapter>, hash: UrlHash): Labels {
    if ServesVllm(labels) then Pass(labels, adapters, hash) else labels
  }

  ghost function LabelsNow(pods: seq<ModelPod>): (all: seq<Labels>)
    reads pods
    ensures |all| == |pods| && forall i :: 0 <= i < |pods| ==> all[i] == pods[i].labels
  {
    if pods == [] then [] else LabelsNow(pods[..|pods| - 1]) + [pods[|pods| - 1].labels]
  }

  /** The calls a Pod needs: three for each adapter to load and each to unload, if it serves vLLM. */
  function CallsFor(labels: Labels, adapters: seq<Adapter>, hash: UrlHash): nat {
    if ServesVllm(labels) then 3 * (|ToEnsure(labels, adapters, hash)| + |ToRemove(labels, adapters, hash)|)
    else 0
  }

  function TotalCalls(all: seq<Labels>, adapters: seq<Adapter>, hash: UrlHash): nat {
    if all == [] then 0 else TotalCalls(all[..|all| - 1], adapters, hash) + CallsFor(all[|all| - 1], adapters, hash)
  }

  lemma {:induction false} TotalGrows(all: seq<Labels>, adapters: seq<Adapter>, hash: UrlHash, i: nat)
    requires i < |all|
    ensures TotalCalls(all[..i + 1], adapters, hash) == TotalCalls(all[..i], adapters, hash) + CallsFor(all[i], adapters, hash)
    ensures TotalCalls(all[..i + 1], adapters, hash) <= TotalCalls(all, adapters, hash)
    decreases |all|
  {
    assert all[..i + 1][..i] == all[..i];
    if i + 1 < |all| {
      TotalGrows(all[..|all| - 1], adapters, hash, i);
      assert all[..|all| - 1][..i + 1] == all[..i + 1] && all[..|all| - 1][..i] == all[..i];
    } else {
      assert all[..i + 1] == all;
    }
  }

  /** Without errors every vLLM Pod gets exactly one `Pass` and no other Pod changes.  The pass
      stops early only at a vLLM Pod whose loader is not ready.  With every loader ready it fails
      exactly when some call of those it needs does.  In every outcome each Pod keeps the labels
      that are not about adapters. */
  method ReconcileAdapters(pods: seq<ModelPod>, adapters: seq<Adapter>, hash: UrlHash, budget: nat) returns (r: Outcome)
    requires forall i, j :: 0 <= i < j < |pods| ==> pods[i] != pods[j]
    modifies pods
    ensures r == Done ==> forall p :: p in pods ==> p.labels == Target(old(p.labels), adapters, hash)
    ensures r == Done ==> forall p :: p in pods && ServesVllm(old(p.labels)) ==> p.loaderReady
    ensures r == ReturnEarly ==> exists p :: p in pods && ServesVllm(old(p.labels)) && !p.loaderReady
    ensures forall p :: p in pods ==> SameOtherLabels(old(p.labels), p.labels)
    ensures (forall p :: p in pods && ServesVllm(old(p.labels)) ==> p.loaderReady) ==>
              r == if TotalCalls(old(LabelsNow(pods)), adapters, hash) <= budget then Done else Failed
  {
    hide *;
    ghost var all := LabelsNow(pods);
    forall p | p in pods ensures SameOtherLabels(old(p.labels), p.labels) { SameLabels(p.labels); }
    var left, i := budget, 0;
    NoCalls(all, adapters, hash);
    while i < |pods|
      invariant 0 <= i <= |pods|
      invariant left == budget - TotalCalls(all[..i], adapters, hash)
      invariant forall j :: 0 <= j < i ==> pods[j].labels == Target(old(pods[j].labels), adapters, hash)
      invariant forall j :: 0 <= j < i && ServesVllm(old(pods[j].labels)) ==> pods[j].loaderReady
      invariant forall j :: i <= j < |pods| ==> pods[j].labels == all[j]
      invariant forall p :: p in pods ==> SameOtherLabels(old(p.labels), p.labels)
    {
      var pod := pods[i];
      TotalGrows(all, adapters, hash, i);
      OnePod(all[i], adapters, hash);
      if ServesVllm(pod.labels) {
        var toEnsure, toRemove := Candidates(pod.labels, adapters, hash);
        if !pod.loaderReady { return ReturnEarly; }
        var ok;
        ok, left := pod.Apply(toEnsure, toRemove, hash, left);
        if !ok { return Failed; }
      }
      i := i + 1;
    }
    assert all[..|pods|] == all;
    r := Done;
  }

  /** What one Pod needs and what its pass must leave. */
  lemma OnePod(labels: Labels, adapters: seq<Adapter>, hash: UrlHash)
    ensures var load, unload := ToEnsure(labels, adapters, hash), ToRemove(labels, adapters, hash);
            && CallsFor(labels, adapters, hash) == (if ServesVllm(labels) then 3 * (|load| + |unload|) else 0)
            && Target(labels, adapters, hash) == if ServesVllm(labels) then RemoveAll(EnsureAll(labels, load, hash), unload) else labels
  {
  }

  lemma NoCalls(all: seq<Labels>, adapters: seq<Adapter>, hash: UrlHash)
    ensures TotalCalls(all[..0], adapters, hash) == 0
  {
  }

  /** What the reconciliation leaves on a Pod, from the value of its engine label. */
  lemma TargetInOwnTerms(labels: Labels, adapters: seq<Adapter>, hash: UrlHash)
    ensures Target(labels, adapters, hash) ==
            if "app.kubernetes.io/name" in labels && labels["app.kubernetes.io/name"] == "vllm"
            then Pass(labels, adapters, hash) else labels
    ensures TotalCalls([labels], adapters, hash) ==
            if "app.kubernetes.io/name" in labels && labels["app.kubernetes.io/name"] == "vllm"
            then 3 * (|ToEnsure(labels, adapters, hash)| + |ToRemove(labels, adapters, hash)|) else 0
  {
    assert [labels][..0] == [];
    hide Pass, ToEnsure, ToRemove;
  }

  lemma SameLabels(labels: Labels)
    ensures SameOtherLabels(labels, labels)
  {
  }
}
