/** The order in which providers of a block are asked (internal/node/api.go). */
module Providers {
  import opened Bytes
  import opened Arithmetic
  import opened Ranking

  /** Position and path score of each provider; a provider without a path scores -1. */
  function Numbered(quality: seq<real>): (r: seq<Scored<nat>>)
    ensures |r| == |quality| && forall i | 0 <= i < |r| :: r[i] == Scored(i, quality[i])
  {
    seq(|quality|, i requires 0 <= i < |quality| => Scored(i, quality[i]))
  }

  ghost predicate InRange(order: seq<Scored<nat>>, n: nat) {
    forall i | 0 <= i < |order| :: order[i].item < n
  }

  /** The providers at the listed positions. */
  function Pick(ps: seq<string>, order: seq<Scored<nat>>): (r: seq<string>)
    requires InRange(order, |ps|)
    ensures |r| == |order| && forall i | 0 <= i < |r| :: r[i] == ps[order[i].item]
  {
    seq(|order|, i requires 0 <= i < |order| => ps[order[i].item])
  }

  lemma SortedInRange(quality: seq<real>)
    ensures InRange(SortDesc<nat>(Numbered(quality)), |quality|)
  {
    var s: seq<Scored<nat>> := Numbered(quality);
    SortSorts<nat>(s);
    forall i | 0 <= i < |s| ensures SortDesc<nat>(s)[i].item < |quality| {
      assert SortDesc<nat>(s)[i] in multiset(s);
      var k :| 0 <= k < |s| && s[k] == SortDesc<nat>(s)[i];
    }
  }

  /** What counts of the best path to a provider; the RTT in nanoseconds. */
  datatype Best = Best(successRate: real, avgRTT: int)

  /** A provider's score: the success rate per second of RTT, or -1 without a path. */
  function PathQuality(best: Option<Best>): real {
    match best
    case None => -1.0
    case Some(b) =>
      if b.avgRTT > 0 then b.successRate / (b.avgRTT as real / 1_000_000_000.0) else b.successRate
  }

  function Qualities(best: seq<Option<Best>>): (qs: seq<real>)
    ensures |qs| == |best| && forall i | 0 <= i < |qs| :: qs[i] == PathQuality(best[i])
  {
    seq(|best|, i requires 0 <= i < |best| => PathQuality(best[i]))
  }

  /** The score times the RTT is the success rate, in seconds; without an RTT it is the success rate. */
  lemma QualityIs(best: Option<Best>)
    ensures match best
            case None => PathQuality(best) == -1.0
            case Some(b) =>
              if b.avgRTT > 0 then PathQuality(best) * b.avgRTT as real == b.successRate * 1_000_000_000.0
              else PathQuality(best) == b.successRate
  {
    if best.Some? && best.value.avgRTT > 0 {
      var s := best.value.avgRTT as real / 1_000_000_000.0;
      assert s > 0.0 && s * 1_000_000_000.0 == best.value.avgRTT as real;
      assert best.value.successRate / s * s == best.value.successRate;
    }
  }

  /** Any path beats none; of two with one RTT the more reliable wins, of two equally reliable the faster. */
  lemma QualityOrders(x: Best, y: Best)
    requires x.successRate >= 0.0
    ensures PathQuality(Some(x)) > PathQuality(None)
    ensures x.avgRTT == y.avgRTT && x.successRate > y.successRate ==> PathQuality(Some(x)) > PathQuality(Some(y))
    ensures 0 < x.avgRTT < y.avgRTT && x.successRate == y.successRate > 0.0 ==>
              PathQuality(Some(x)) > PathQuality(Some(y))
  {
    QualityIs(None);
    QualityIs(Some(x));
    QualityIs(Some(y));
    hide PathQuality;
    var qx, qy := PathQuality(Some(x)), PathQuality(Some(y));
    if x.avgRTT > 0 {
      CancelFactor(qx, 0.0, x.avgRTT as real);
      if x.avgRTT == y.avgRTT {
        MoreIsMore(qx, qy, x.avgRTT as real, x.successRate * 1_000_000_000.0, y.successRate * 1_000_000_000.0);
      }
      if x.avgRTT < y.avgRTT && x.successRate == y.successRate > 0.0 {
        FasterIsMore(qx, qy, x.avgRTT as real, y.avgRTT as real);
      }
    }
  }

  lemma MoreIsMore(qx: real, qy: real, r: real, x: real, y: real)
    requires r > 0.0 && qx * r == x && qy * r == y
    ensures x > y ==> qx > qy
  {
    CancelFactor(qx, qy, r);
  }

  lemma FasterIsMore(qx: real, qy: real, r: real, t: real)
    requires 0.0 < r < t && qx * r == qy * t > 0.0
    ensures qx > qy
  {
    CancelFactor(qy, 0.0, t);
    LessFactor(qy, r, t);
    CancelFactor(qx, qy, r);
  }

  lemma LessFactor(q: real, r: real, t: real)
    requires q > 0.0 && r < t
    ensures q * r < q * t
  {
    TimesPositive(q, t - r);
    TimesMinus(q, t, r);
  }

  /** `sortProvidersByPathQuality`; `best` is what the path manager says of each provider in turn. */
  method SortByPathQuality(providers: array<string>, best: seq<Option<Best>>)
    requires |best| == providers.Length
    modifies providers
    ensures InRange(SortDesc<nat>(Numbered(Qualities(best))), providers.Length)
    ensures providers[..] == Pick(old(providers[..]), SortDesc<nat>(Numbered(Qualities(best))))
  {
    hide SortDesc, PathQuality;
    ghost var quality := Qualities(best);
    var scores := new Scored<nat>[|best|](i requires 0 <= i < |best| => Scored(i, PathQuality(best[i])));
    assert scores[..] == Numbered(quality);
    InsertionSort<nat>(scores);
    SortedInRange(quality);
    ghost var order := scores[..];
    var sorted: seq<string> := [];
    for i := 0 to scores.Length
      invariant |sorted| == i && forall k | 0 <= k < i :: sorted[k] == providers[order[k].item]
    {
      sorted := sorted + [providers[scores[i].item]];
    }
    ghost var before := providers[..];
    Copy(sorted, providers, 0);
    assert providers[..] == Pick(before, order);
  }

  /** Go's `copy(dst[at:], src)`. */
  method Copy(src: seq<string>, dst: array<string>, at: nat)
    requires at + |src| <= dst.Length
    modifies dst
    ensures dst[..] == old(dst[..at]) + src + old(dst[at + |src|..])
  {
    for i := 0 to |src|
      invariant dst[..at] == old(dst[..at]) && dst[at..at + i] == src[..i]
      invariant dst[at + i..] == old(dst[at + i..])
    {
      dst[at + i] := src[i];
    }
  }

  function Keep(ps: seq<string>, hinted: string -> bool, wanted: bool): seq<string> {
    if ps == [] then []
    else Keep(ps[..|ps| - 1], hinted, wanted) + (if hinted(ps[|ps| - 1]) == wanted then [ps[|ps| - 1]] else [])
  }

  lemma {:induction false} KeepLengths(ps: seq<string>, hinted: string -> bool)
    ensures |Keep(ps, hinted, true)| + |Keep(ps, hinted, false)| == |ps|
  {
    if ps != [] {
      KeepLengths(ps[..|ps| - 1], hinted);
    }
  }

  lemma NoneKept(hinted: string -> bool)
    ensures Keep([], hinted, true) == Keep([], hinted, false) == []
  {
  }

  lemma KeepStep(ps: seq<string>, i: nat, hinted: string -> bool, wanted: bool)
    requires i < |ps|
    ensures Keep(ps[..i + 1], hinted, wanted)
         == if hinted(ps[i]) == wanted then Keep(ps[..i], hinted, wanted) + [ps[i]] else Keep(ps[..i], hinted, wanted)
  {
    assert ps[..i + 1][..i] == ps[..i];
  }

  /** A peer's summary says it may have the block; a lookup that fails says nothing. */
  function Hinted(hint: string -> Option<bool>): string -> bool {
    p => hint(p) == Some(true)
  }

  /** Every listed provider can be looked up. */
  ghost predicate AllAnswer(ps: seq<string>, hint: string -> Option<bool>) {
    forall i | 0 <= i < |ps| :: hint(ps[i]).Some?
  }

  lemma NoneAsked(hint: string -> Option<bool>)
    ensures AllAnswer([], hint)
  {
  }

  lemma AnswerStep(ps: seq<string>, i: nat, hint: string -> Option<bool>)
    requires i < |ps| && AllAnswer(ps[..i], hint)
    ensures AllAnswer(ps[..i + 1], hint) <==> hint(ps[i]).Some?
    ensures hint(ps[i]).None? ==> !AllAnswer(ps, hint)
  {
  }

  /** `boostCachedProviders`; `hint` is the lookup of a provider, None where it fails and the call with it. */
  method BoostCached(providers: array<string>, hint: string -> Option<bool>) returns (completes: bool)
    modifies providers
    ensures completes <==> AllAnswer(old(providers[..]), hint)
    ensures !completes ==> providers[..] == old(providers[..])
    ensures completes ==>
              providers[..]
              == Keep(old(providers[..]), Hinted(hint), true) + Keep(old(providers[..]), Hinted(hint), false)
  {
    hide Keep, AllAnswer;
    ghost var before := providers[..];
    NoneKept(Hinted(hint));
    NoneAsked(hint);
    var cached: seq<string>, rest: seq<string> := [], [];
    for i := 0 to providers.Length
      invariant providers[..] == before && AllAnswer(before[..i], hint)
      invariant cached == Keep(before[..i], Hinted(hint), true) && rest == Keep(before[..i], Hinted(hint), false)
    {
      KeepStep(before, i, Hinted(hint), true);
      KeepStep(before, i, Hinted(hint), false);
      AnswerStep(before, i, hint);
      var answer := hint(providers[i]);
      if answer.None? {
        return false;
      }
      if answer.value {
        cached := cached + [providers[i]];
      } else {
        rest := rest + [providers[i]];
      }
    }
    assert before[..providers.Length] == before;
    KeepLengths(before, Hinted(hint));
    Copy(cached, providers, 0);
    Copy(rest, providers, |cached|);
    return true;
  }

  // ----- The order that results -----

  /** The positions whose provider is, or is not, hinted. */
  function KeepPositions(ps: seq<string>, order: seq<Scored<nat>>, hinted: string -> bool, wanted: bool)
    : (r: seq<Scored<nat>>)
    requires InRange(order, |ps|)
    ensures InRange(r, |ps|)
  {
    if order == [] then []
    else
      var l := order[|order| - 1];
      KeepPositions(ps, order[..|order| - 1], hinted, wanted) + (if hinted(ps[l.item]) == wanted then [l] else [])
  }

  lemma {:induction false} KeepCommutes(ps: seq<string>, order: seq<Scored<nat>>, hinted: string -> bool, wanted: bool)
    requires InRange(order, |ps|)
    ensures Keep(Pick(ps, order), hinted, wanted) == Pick(ps, KeepPositions(ps, order, hinted, wanted))
  {
    if order != [] {
      var f := order[..|order| - 1];
      KeepCommutes(ps, f, hinted, wanted);
      assert Pick(ps, order)[..|order| - 1] == Pick(ps, f);
    }
  }

  /** Hinted providers first; then by descending score; then by original position. */
  ghost predicate Before(ps: seq<string>, hinted: string -> bool, a: Scored<nat>, b: Scored<nat>)
    requires a.item < |ps| && b.item < |ps|
  {
    if hinted(ps[a.item]) != hinted(ps[b.item]) then hinted(ps[a.item])
    else a.score > b.score || (a.score == b.score && a.item < b.item)
  }

  ghost predicate WellRanked(ps: seq<string>, hinted: string -> bool, order: seq<Scored<nat>>)
    requires InRange(order, |ps|)
  {
    forall i, j | 0 <= i < j < |order| :: Before(ps, hinted, order[i], order[j])
  }

  function FinalOrder(ps: seq<string>, quality: seq<real>, hinted: string -> bool): (r: seq<Scored<nat>>)
    requires |ps| == |quality|
    ensures InRange(r, |ps|)
  {
    SortedInRange(quality);
    var order := SortDesc<nat>(Numbered(quality));
    KeepPositions(ps, order, hinted, true) + KeepPositions(ps, order, hinted, false)
  }

  lemma {:induction false} KeepProperties(ps: seq<string>, order: seq<Scored<nat>>, hinted: string -> bool,
                                          wanted: bool)
    requires InRange(order, |ps|) && Lexicographic(order)
    ensures var r := KeepPositions(ps, order, hinted, wanted);
            Lexicographic(r) && forall i | 0 <= i < |r| :: r[i] in order && hinted(ps[r[i].item]) == wanted
  {
    if order != [] {
      hide KeepPositions, Lexicographic;
      var f, l := order[..|order| - 1], order[|order| - 1];
      LastOfOrder(order);
      KeepProperties(ps, f, hinted, wanted);
      LexicographicEnd(KeepPositions(ps, f, hinted, wanted), f, l);
      KeepStepOf(ps, order, hinted, wanted);
    }
  }

  ghost predicate Ahead(a: Scored<nat>, b: Scored<nat>) {
    a.score > b.score || (a.score == b.score && a.item < b.item)
  }

  lemma LastOfOrder(order: seq<Scored<nat>>)
    requires order != [] && Lexicographic(order)
    ensures Lexicographic(order[..|order| - 1])
    ensures forall e | e in order[..|order| - 1] :: e in order && Ahead(e, order[|order| - 1])
  {
    var f, l := order[..|order| - 1], order[|order| - 1];
    forall e | e in f ensures e in order && Ahead(e, l) {
      var k :| 0 <= k < |f| && f[k] == e;
      assert order[k] == e;
    }
  }

  lemma LexicographicEnd(r: seq<Scored<nat>>, f: seq<Scored<nat>>, l: Scored<nat>)
    requires Lexicographic(r) && (forall i | 0 <= i < |r| :: r[i] in f) && forall e | e in f :: Ahead(e, l)
    ensures Lexicographic(r + [l]) && Lexicographic(r + [])
  {
    assert r + [] == r;
  }

  lemma KeepStepOf(ps: seq<string>, order: seq<Scored<nat>>, hinted: string -> bool, wanted: bool)
    requires order != [] && InRange(order, |ps|)
    ensures var l := order[|order| - 1];
            KeepPositions(ps, order, hinted, wanted)
            == KeepPositions(ps, order[..|order| - 1], hinted, wanted)
               + (if hinted(ps[l.item]) == wanted then [l] else [])
  {
  }

  lemma AppendOne(a: seq<Scored<nat>>, b: seq<Scored<nat>>, l: Scored<nat>)
    ensures multiset(a + [l]) + multiset(b) == multiset(a) + multiset(b) + multiset{l}
    ensures multiset(a) + multiset(b + [l]) == multiset(a) + multiset(b) + multiset{l}
    ensures a + [] == a && b + [] == b
  {
  }

  lemma PickAppend(ps: seq<string>, a: seq<Scored<nat>>, b: seq<Scored<nat>>)
    requires InRange(a, |ps|) && InRange(b, |ps|)
    ensures InRange(a + b, |ps|) && Pick(ps, a + b) == Pick(ps, a) + Pick(ps, b)
  {
  }

  lemma {:induction false} KeepLosesNothing(ps: seq<string>, order: seq<Scored<nat>>, hinted: string -> bool)
    requires InRange(order, |ps|)
    ensures multiset(KeepPositions(ps, order, hinted, true)) + multiset(KeepPositions(ps, order, hinted, false))
         == multiset(order)
  {
    if order != [] {
      var f, l := order[..|order| - 1], order[|order| - 1];
      KeepLosesNothing(ps, f, hinted);
      assert order == f + [l];
      var kept, others := KeepPositions(ps, f, hinted, true), KeepPositions(ps, f, hinted, false);
      AppendOne(kept, others, l);
    }
  }

  /** Sorting and boosting arrange every position once, by (hint, score descending, original position). */
  lemma FinalOrderRanked(ps: seq<string>, quality: seq<real>, hinted: string -> bool)
    requires |ps| == |quality|
    ensures multiset(FinalOrder(ps, quality, hinted)) == multiset(Numbered(quality))
    ensures WellRanked(ps, hinted, FinalOrder(ps, quality, hinted))
  {
    var order := SortDesc<nat>(Numbered(quality));
    SortedInRange(quality);
    SortSorts<nat>(Numbered(quality));
    SortStable(Numbered(quality));
    KeepLosesNothing(ps, order, hinted);
    KeepProperties(ps, order, hinted, true);
    KeepProperties(ps, order, hinted, false);
  }

  lemma HintedComeFirst(ps: seq<string>, quality: seq<real>, hinted: string -> bool)
    requires |ps| == |quality|
    ensures var ranked := Pick(ps, FinalOrder(ps, quality, hinted));
            && |ranked| == |ps|
            && forall i, j | 0 <= i < |ps| && 0 <= j < |ps| && hinted(ranked[i]) && !hinted(ranked[j]) :: i < j
  {
    FinalOrderRanked(ps, quality, hinted);
    var order := FinalOrder(ps, quality, hinted);
    assert |order| == |multiset(order)| == |multiset(Numbered(quality))|;
  }

  lemma PickAnswers(ps: seq<string>, quality: seq<real>, hint: string -> Option<bool>)
    requires |ps| == |quality|
    ensures InRange(SortDesc<nat>(Numbered(quality)), |ps|)
    ensures AllAnswer(Pick(ps, SortDesc<nat>(Numbered(quality))), hint) <==> AllAnswer(ps, hint)
  {
    var s: seq<Scored<nat>>, order: seq<Scored<nat>> := Numbered(quality), SortDesc<nat>(Numbered(quality));
    SortedInRange(quality);
    SortSorts<nat>(s);
    if AllAnswer(Pick(ps, order), hint) {
      forall i | 0 <= i < |ps| ensures hint(ps[i]).Some? {
        assert s[i] in multiset(order);
        var k :| 0 <= k < |order| && order[k] == s[i];
        assert hint(Pick(ps, order)[k]).Some?;
      }
    }
  }

  /** What `fetchBlockFromNetwork` does to its providers: it completes exactly if each of them can be looked up. */
  method RankProviders(providers: array<string>, best: seq<Option<Best>>, hint: string -> Option<bool>)
    returns (completes: bool)
    requires |best| == providers.Length
    modifies providers
    ensures completes <==> AllAnswer(old(providers[..]), hint)
    ensures completes ==>
              providers[..] == Pick(old(providers[..]), FinalOrder(old(providers[..]), Qualities(best), Hinted(hint)))
  {
    hide Pick, KeepPositions, Keep, SortDesc, Numbered, AllAnswer;
    ghost var before, hinted, quality := providers[..], Hinted(hint), Qualities(best);
    SortByPathQuality(providers, best);
    PickAnswers(before, quality, hint);
    completes := BoostCached(providers, hint);
    ghost var order := SortDesc<nat>(Numbered(quality));
    KeepCommutes(before, order, hinted, true);
    KeepCommutes(before, order, hinted, false);
    PickAppend(before, KeepPositions(before, order, hinted, true), KeepPositions(before, order, hinted, false));
  }
}
