/** Simulations and their pair-list arithmetic (src/simulation.ts). */
module Simulations {
  import opened Request
  import opened Response
  import opened Arrays

  /** One request matcher with the response served for it. */
  datatype Pair = Pair(request: RequestMatcher, response: ResponseData)

  datatype DelayConfig = DelayConfig(urlPattern: string, httpMethod: string, delay: int)

  datatype DelayLogNormalConfig = DelayLogNormalConfig(
    urlPattern: string, httpMethod: string, min: int, max: int, mean: int, median: int)

  datatype GlobalActions = GlobalActions(
    delays: seq<DelayConfig>, delaysLogNormal: seq<DelayLogNormalConfig>)

  datatype SimulationData = SimulationData(pairs: seq<Pair>, globalActions: GlobalActions)

  datatype Meta = Meta(schemaVersion: string, hoverflyVersion: string, timeExported: string)

  /** An exported simulation: an ordered pair list, global delays and export metadata. */
  datatype Simulation = Simulation(data: SimulationData, meta: Meta)

  /** The metadata every simulation built by this library carries. */
  const BuiltMeta := Meta("v5.2", "v1.9.0", "2024-10-31T08:40:30Z")

  /** A simulation holding exactly `pairs`, no global delays, and the fixed metadata. */
  function BuildSimulation(pairs: seq<Pair>): (s: Simulation)
    ensures s.data.pairs == pairs
    ensures s.data.globalActions.delays == [] && s.data.globalActions.delaysLogNormal == []
    ensures s.meta == BuiltMeta
  {
    Simulation(SimulationData(pairs, GlobalActions([], [])), BuiltMeta)
  }

  /** The signatures of the request matchers of `pairs`, position by position. */
  function Signatures(sig: Signature, pairs: seq<Pair>): (r: seq<string>)
    ensures |r| == |pairs|
    ensures forall i :: 0 <= i < |pairs| ==> r[i] == sig(pairs[i].request)
  {
    seq(|pairs|, i requires 0 <= i < |pairs| => sig(pairs[i].request))
  }

  /** A pair's signature is among `pairs`' signatures exactly when some pair there
      has the same signature. */
  lemma SignatureOccurs(sig: Signature, p: Pair, pairs: seq<Pair>)
    ensures sig(p.request) in Signatures(sig, pairs) <==>
            exists q :: q in pairs && sig(q.request) == sig(p.request)
  {
  }

  /** The filter callback: the pair's signature is none of `signatures`. */
  function Unmatched(sig: Signature, signatures: seq<string>): Pair -> bool
  {
    (p: Pair) => sig(p.request) !in signatures
  }

  /** The pairs of `left` whose request signature occurs nowhere in `right`. */
  function SubtractPairs(sig: Signature, left: seq<Pair>, right: seq<Pair>): (r: seq<Pair>)
    ensures forall p :: p in r <==> p in left && sig(p.request) !in Signatures(sig, right)
  {
    Filter(left, Unmatched(sig, Signatures(sig, right)))
  }

  /** The pairs of `left` not overridden by `right`, followed by all of `right`. */
  function MergeSimulations(sig: Signature, left: Simulation, right: Simulation): (r: Simulation)
    ensures r.data.pairs == SubtractPairs(sig, left.data.pairs, right.data.pairs) + right.data.pairs
    ensures r == BuildSimulation(r.data.pairs)
  {
    var leftPairsToKeep := SubtractPairs(sig, left.data.pairs, right.data.pairs);
    BuildSimulation(leftPairsToKeep + right.data.pairs)
  }

  /** The pairs of `left` not overridden by `right`. */
  function SubtractSimulations(sig: Signature, left: Simulation, right: Simulation): (r: Simulation)
    ensures r.data.pairs == SubtractPairs(sig, left.data.pairs, right.data.pairs)
    ensures r == BuildSimulation(r.data.pairs)
  {
    var leftPairsToKeep := SubtractPairs(sig, left.data.pairs, right.data.pairs);
    BuildSimulation(leftPairsToKeep)
  }

  // Subtraction

  /** Subtraction keeps, in their original order, exactly the positions of `left` whose
      signature does not occur in `right`; nothing is invented or taken twice. */
  lemma SubtractSelectsUnmatched(sig: Signature, left: seq<Pair>, right: seq<Pair>)
    returns (idx: seq<nat>)
    ensures SelectsInOrder(idx, SubtractPairs(sig, left, right), left)
    ensures forall i :: 0 <= i < |left| ==>
              (i in idx <==> sig(left[i].request) !in Signatures(sig, right))
  {
    idx := FilterSelects(left, Unmatched(sig, Signatures(sig, right)));
  }

  /** Subtracting nothing leaves the pair list as it is. */
  lemma SubtractNothing(sig: Signature, left: seq<Pair>)
    ensures SubtractPairs(sig, left, []) == left
  {
    FilterKeepsAll(left, Unmatched(sig, Signatures(sig, [])));
  }

  /** Subtracting a pair list from itself leaves nothing. */
  lemma SubtractSelf(sig: Signature, pairs: seq<Pair>)
    ensures SubtractPairs(sig, pairs, pairs) == []
  {
    var sigs := Signatures(sig, pairs);
    forall p | p in pairs
      ensures sig(p.request) in sigs
    {
      var i :| 0 <= i < |pairs| && pairs[i] == p;
      assert sigs[i] == sig(p.request);
    }
    FilterDropsAll(pairs, Unmatched(sig, sigs));
  }

  /** Subtraction distributes over concatenation of the pairs it is applied to. */
  lemma SubtractConcat(sig: Signature, a: seq<Pair>, b: seq<Pair>, right: seq<Pair>)
    ensures SubtractPairs(sig, a + b, right) == SubtractPairs(sig, a, right) + SubtractPairs(sig, b, right)
  {
    FilterConcat(a, b, Unmatched(sig, Signatures(sig, right)));
  }

  /** Subtracting the same pairs twice is subtracting them once. */
  lemma SubtractIdempotent(sig: Signature, left: seq<Pair>, right: seq<Pair>)
    ensures SubtractPairs(sig, SubtractPairs(sig, left, right), right) == SubtractPairs(sig, left, right)
  {
    var kept := SubtractPairs(sig, left, right);
    FilterKeepsAll(kept, Unmatched(sig, Signatures(sig, right)));
  }

  // Counting pairs by signature

  /** How many pairs of `pairs` have signature `s`. */
  function SignatureCount(sig: Signature, pairs: seq<Pair>, s: string): (n: nat)
    ensures n <= |pairs|
  {
    if pairs == [] then 0
    else (if sig(pairs[0].request) == s then 1 else 0) + SignatureCount(sig, pairs[1..], s)
  }

  /** A signature has no pairs exactly when it is not among the list's signatures. */
  lemma {:induction false} SignatureCountZero(sig: Signature, pairs: seq<Pair>, s: string)
    ensures SignatureCount(sig, pairs, s) == 0 <==> s !in Signatures(sig, pairs)
  {
    if pairs != [] {
      assert Signatures(sig, pairs) == [sig(pairs[0].request)] + Signatures(sig, pairs[1..]);
      SignatureCountZero(sig, pairs[1..], s);
    }
  }

  lemma {:induction false} SignatureCountConcat(sig: Signature, a: seq<Pair>, b: seq<Pair>, s: string)
    ensures SignatureCount(sig, a + b, s) == SignatureCount(sig, a, s) + SignatureCount(sig, b, s)
  {
    if a == [] {
      assert a + b == b;
    } else {
      assert (a + b)[0] == a[0];
      assert (a + b)[1..] == a[1..] + b;
      SignatureCountConcat(sig, a[1..], b, s);
    }
  }

  /** After subtraction no pair carries one of `right`'s signatures, and every other
      signature keeps all its pairs. */
  lemma {:induction false} SubtractSignatureCount(sig: Signature, left: seq<Pair>, right: seq<Pair>, s: string)
    ensures SignatureCount(sig, SubtractPairs(sig, left, right), s) ==
            if s in Signatures(sig, right) then 0 else SignatureCount(sig, left, s)
  {
    var keep := Unmatched(sig, Signatures(sig, right));
    if left != [] {
      SubtractSignatureCount(sig, left[1..], right, s);
      if keep(left[0]) {
        assert SubtractPairs(sig, left, right) == [left[0]] + SubtractPairs(sig, left[1..], right);
        SignatureCountConcat(sig, [left[0]], SubtractPairs(sig, left[1..], right), s);
      } else {
        assert SubtractPairs(sig, left, right) == SubtractPairs(sig, left[1..], right);
      }
    }
  }

  // Merging

  /** Merging overwrites: the merge ends with every pair of `right`, in order and with
      its duplicates; the pairs before them are `left`'s pairs whose signature is none of
      `right`'s; and every pair of `left` with such a signature is still there. */
  lemma MergeOverwrites(sig: Signature, left: Simulation, right: Simulation)
    ensures var merged := MergeSimulations(sig, left, right).data.pairs;
            var n := |merged| - |right.data.pairs|;
            && 0 <= n <= |left.data.pairs|
            && merged[n..] == right.data.pairs
            && (forall i :: 0 <= i < n ==>
                  merged[i] in left.data.pairs && sig(merged[i].request) !in Signatures(sig, right.data.pairs))
            && (forall p :: p in left.data.pairs && sig(p.request) !in Signatures(sig, right.data.pairs) ==>
                  p in merged[..n])
  {
  }

  /** In a merge, a signature that `right` uses has exactly `right`'s pairs; any other
      signature has exactly `left`'s. */
  lemma MergeSignatureCount(sig: Signature, left: Simulation, right: Simulation, s: string)
    ensures SignatureCount(sig, MergeSimulations(sig, left, right).data.pairs, s) ==
            if s in Signatures(sig, right.data.pairs) then SignatureCount(sig, right.data.pairs, s)
            else SignatureCount(sig, left.data.pairs, s)
  {
    var kept := SubtractPairs(sig, left.data.pairs, right.data.pairs);
    SignatureCountConcat(sig, kept, right.data.pairs, s);
    SubtractSignatureCount(sig, left.data.pairs, right.data.pairs, s);
    SignatureCountZero(sig, right.data.pairs, s);
  }

  /** When `right` has a single pair `q` for a signature, the merge has a single pair
      for that signature too, and it is `q` with `q`'s response, whatever `left` held. */
  lemma MergeReplacesMatch(sig: Signature, left: Simulation, right: Simulation, q: Pair)
    requires q in right.data.pairs && SignatureCount(sig, right.data.pairs, sig(q.request)) == 1
    ensures var merged := MergeSimulations(sig, left, right).data.pairs;
            && SignatureCount(sig, merged, sig(q.request)) == 1
            && forall p :: p in merged && sig(p.request) == sig(q.request) ==> p == q
  {
    var s := sig(q.request);
    var merged := MergeSimulations(sig, left, right).data.pairs;
    SignatureOccurs(sig, q, right.data.pairs);
    MergeSignatureCount(sig, left, right, s);
    forall p | p in merged && sig(p.request) == s
      ensures p == q
    {
      SingleSignature(sig, right.data.pairs, q, p);
    }
  }

  /** Two pairs of a list that share a signature counted once there are the same pair. */
  lemma {:induction false} SingleSignature(sig: Signature, pairs: seq<Pair>, q: Pair, p: Pair)
    requires q in pairs && p in pairs && sig(p.request) == sig(q.request)
    requires SignatureCount(sig, pairs, sig(q.request)) == 1
    ensures p == q
  {
    var s := sig(q.request);
    if pairs[0] != p || pairs[0] != q {
      assert p in pairs[1..] || q in pairs[1..];
      if sig(pairs[0].request) == s {
        var other := if p in pairs[1..] then p else q;
        SignatureOccurs(sig, other, pairs[1..]);
        SignatureCountZero(sig, pairs[1..], s);
        assert false;
      } else {
        assert p in pairs[1..] && q in pairs[1..];
        SingleSignature(sig, pairs[1..], q, p);
      }
    }
  }

  /** When no pair of `left` shares a signature with `right`, merging keeps every pair
      of both, `left`'s first. Matchers that differ only in member order are such pairs
      whenever their signatures differ (see `Request.ReorderedMembersDiffer`). */
  lemma MergeDisjoint(sig: Signature, left: Simulation, right: Simulation)
    requires forall p :: p in left.data.pairs ==> sig(p.request) !in Signatures(sig, right.data.pairs)
    ensures MergeSimulations(sig, left, right).data.pairs == left.data.pairs + right.data.pairs
  {
    FilterKeepsAll(left.data.pairs, Unmatched(sig, Signatures(sig, right.data.pairs)));
  }

  /** Merging an empty simulation keeps the left pairs. */
  lemma MergeEmptyRight(sig: Signature, left: Simulation, right: Simulation)
    requires right.data.pairs == []
    ensures MergeSimulations(sig, left, right).data.pairs == left.data.pairs
  {
    SubtractNothing(sig, left.data.pairs);
  }

  /** Merging into an empty simulation gives the right pairs. */
  lemma MergeIntoEmpty(sig: Signature, left: Simulation, right: Simulation)
    requires left.data.pairs == []
    ensures MergeSimulations(sig, left, right).data.pairs == right.data.pairs
  {
  }

  /** Merging a simulation with itself gives back its pairs. */
  lemma MergeSelf(sig: Signature, sim: Simulation)
    ensures MergeSimulations(sig, sim, sim).data.pairs == sim.data.pairs
  {
    SubtractSelf(sig, sim.data.pairs);
  }

  /** Merging the same simulation a second time changes nothing: appending a
      simulation twice is appending it once. */
  lemma MergeIdempotent(sig: Signature, left: Simulation, right: Simulation)
    ensures MergeSimulations(sig, MergeSimulations(sig, left, right), right) ==
            MergeSimulations(sig, left, right)
  {
    var kept := SubtractPairs(sig, left.data.pairs, right.data.pairs);
    SubtractConcat(sig, kept, right.data.pairs, right.data.pairs);
    SubtractIdempotent(sig, left.data.pairs, right.data.pairs);
    SubtractSelf(sig, right.data.pairs);
    assert kept + [] == kept;
  }

  /** Merge and subtract look only at the pair lists: the inputs' global delays and
      metadata are discarded. */
  lemma OnlyPairsMatter(sig: Signature, left: Simulation, right: Simulation, left': Simulation, right': Simulation)
    requires left.data.pairs == left'.data.pairs && right.data.pairs == right'.data.pairs
    ensures MergeSimulations(sig, left, right) == MergeSimulations(sig, left', right')
    ensures SubtractSimulations(sig, left, right) == SubtractSimulations(sig, left', right')
  {
  }
}
