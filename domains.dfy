/**
 * `domain_hint`: a keyword heuristic that labels a prompt with the domain
 * whose keywords occur most often in it, preferring the earlier domain on ties.
 */
module Domains {
  import opened TextOps

  /** A domain name with its keywords, in the order of `DOMAIN_MAP`. */
  type Domain = (string, seq<string>)

  const DomainMap: seq<Domain> := [
    ("finance",   ["stock", "market", "inflation", "interest", "portfolio"]),
    ("legal",     ["contract", "clause", "law", "liability", "nda"]),
    ("tech",      ["api", "python", "vector", "fastapi", "kubernetes", "embedding"]),
    ("geography", ["capital", "country", "city", "border"])
  ]

  const General: string := "general"

  /** `sum(1 for k in kws if k in t)`. */
  function Score(t: string, kws: seq<string>): (n: nat)
    ensures n <= |kws|
  {
    if kws == [] then 0
    else Score(t, kws[..|kws| - 1]) + (if Contains(t, kws[|kws| - 1]) then 1 else 0)
  }

  /** The pair `(best, hits)` after the loop has seen the domains `ds`. */
  function Pick(t: string, ds: seq<Domain>): (r: (string, nat))
    ensures r.0 == General || exists k :: 0 <= k < |ds| && ds[k].0 == r.0
    ensures r.1 == 0 ==> r.0 == General
  {
    if ds == [] then (General, 0)
    else
      var (best, hits) := Pick(t, ds[..|ds| - 1]);
      var score := Score(t, ds[|ds| - 1].1);
      if score > hits then (ds[|ds| - 1].0, score) else (best, hits)
  }

  /** The label `domain_hint` returns for `text`. */
  function DomainOf(text: string): (d: string)
    ensures d in [General, "finance", "legal", "tech", "geography"]
  {
    Pick(Lower(text), DomainMap).0
  }

  /** `domain_hint(text)`: the loop over `DOMAIN_MAP`, with the inner sum as a loop. */
  method DomainHint(text: string) returns (best: string)
    ensures best == DomainOf(text)
  {
    var t := Lower(text);
    var hits := 0;
    best := General;
    var i := 0;
    while i < |DomainMap|
      invariant 0 <= i <= |DomainMap|
      invariant (best, hits) == Pick(t, DomainMap[..i])
    {
      var (d, kws) := DomainMap[i];
      var score := 0;
      var j := 0;
      while j < |kws|
        invariant 0 <= j <= |kws|
        invariant score == Score(t, kws[..j])
      {
        if Contains(t, kws[j]) {
          score := score + 1;
        }
        j := j + 1;
        assert kws[..j][..j - 1] == kws[..j - 1];
      }
      assert kws[..j] == kws;
      if score > hits {
        best, hits := d, score;
      }
      i := i + 1;
      assert DomainMap[..i][..i - 1] == DomainMap[..i - 1];
    }
    assert DomainMap[..i] == DomainMap;
  }

  /** The hint is the first domain of maximal positive score, or `general` when
      no keyword of any domain occurs: returns the chosen position `k` when the
      hint is a domain. */
  lemma {:induction false} PickIsFirstMaximum(t: string, ds: seq<Domain>) returns (k: int)
    ensures var (best, hits) := Pick(t, ds);
      && (forall j :: 0 <= j < |ds| ==> Score(t, ds[j].1) <= hits)
      && (hits == 0 ==> best == General && k == -1)
      && (hits > 0 ==> 0 <= k < |ds| && best == ds[k].0 && Score(t, ds[k].1) == hits
                       && forall j :: 0 <= j < k ==> Score(t, ds[j].1) < hits)
  {
    if ds == [] {
      k := -1;
    } else {
      var init := ds[..|ds| - 1];
      var k0 := PickIsFirstMaximum(t, init);
      var (best0, hits0) := Pick(t, init);
      var score := Score(t, ds[|ds| - 1].1);
      assert forall j :: 0 <= j < |ds| - 1 ==> ds[j] == init[j];
      if score > hits0 {
        k := |ds| - 1;
      } else {
        k := k0;
      }
    }
  }

  /** `domain_hint` answers `general` exactly when no keyword of any domain occurs
      in the lower-cased text. */
  lemma GeneralIffNoKeyword(text: string)
    ensures DomainOf(text) == General <==>
      forall j :: 0 <= j < |DomainMap| ==> Score(Lower(text), DomainMap[j].1) == 0
  {
    var k := PickIsFirstMaximum(Lower(text), DomainMap);
    var (best, hits) := Pick(Lower(text), DomainMap);
    if hits > 0 {
      assert best == DomainMap[k].0 && best != General;
    }
  }
}
