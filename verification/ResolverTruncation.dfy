/**
 Exactly when a resolution is flagged as truncated, told from the sources it
 meets: when one is met with less room than it has lines, or with none.
 */
module ResolverTruncation {
  import opened Graphs
  import opened Collections
  import opened Subscriptions
  import opened Resolver
  import opened ResolverInvariants

  // ------------------------------------------------------------------
  // The sources met
  // ------------------------------------------------------------------

  /** For each source met, in order, the digests it brings, repeated ones included; and the tokens visited. */
  datatype Met = Met(batches: seq<seq<Hash>>, visited: set<Token>)

  function VisitMet(w: World, max: int, t: Token, depth: nat, visited: set<Token>): Met
    decreases max - depth, 0, 0
  {
    if depth > max || t in visited then Met([], visited)
    else if t !in w.store then Met([], visited + {t})
    else SourcesMet(w, max, t, EligibleSources(w.store[t], depth), depth, visited + {t})
  }

  function SourcesMet(w: World, max: int, t: Token, ss: seq<Source>, depth: nat, visited: set<Token>): Met
    requires depth <= max
    decreases max - depth - 1, 1, |ss|
  {
    if ss == [] then Met([], visited)
    else
      var first := SourceMet(w, max, t, ss[0], depth, visited);
      var rest := SourcesMet(w, max, t, ss[1..], depth, first.visited);
      Met(first.batches + rest.batches, rest.visited)
  }

  function SourceMet(w: World, max: int, t: Token, s: Source, depth: nat, visited: set<Token>): Met
    requires depth <= max
    decreases max - depth - 1, 0, 1
  {
    match s.kind
    case Config(hash, _, loaded) => Met([if loaded then [hash] else []], visited)
    case External(url) =>
      var delivered := (t, s.id) !in w.failing && url.Some? && url.value in w.content;
      Met([if delivered then Digests(w.content[url.value]) else []], visited)
    case Internal(target) =>
      if (t, s.id) in w.failing || target.None? then Met([[]], visited)
      else
        var below := VisitMet(w, max, target.value, depth + 1, visited);
        below.(batches := [[]] + below.batches)
  }

  function Digests(lines: seq<Line>): seq<Hash> {
    if lines == [] then [] else [lines[0].hash] + Digests(lines[1..])
  }

  // ------------------------------------------------------------------
  // Room
  // ------------------------------------------------------------------

  function Members(batch: seq<Hash>): set<Hash> {
    set h | h in batch
  }

  function Distinct(batches: seq<seq<Hash>>): set<Hash> {
    set b, h | b in batches && h in b :: h
  }

  /** Source `i` is met when the sources before it leave no room, or less than it has lines. */
  ghost predicate CutAt(batches: seq<seq<Hash>>, i: nat, seen: set<Hash>, max: int) {
    && i < |batches|
    && (|seen + Distinct(batches[..i])| >= max || |seen + Distinct(batches[..i])| + |batches[i]| > max)
  }

  ghost predicate CutShort(batches: seq<seq<Hash>>, seen: set<Hash>, max: int) {
    exists i :: CutAt(batches, i, seen, max)
  }

  lemma DistinctOfJoin(xs: seq<seq<Hash>>, ys: seq<seq<Hash>>)
    ensures Distinct(xs + ys) == Distinct(xs) + Distinct(ys)
  {
  }

  lemma CutInFirstPart(xs: seq<seq<Hash>>, ys: seq<seq<Hash>>, i: nat, seen: set<Hash>, max: int)
    requires i < |xs|
    ensures CutAt(xs + ys, i, seen, max) <==> CutAt(xs, i, seen, max)
  {
    assert (xs + ys)[..i] == xs[..i];
  }

  lemma CutInSecondPart(xs: seq<seq<Hash>>, ys: seq<seq<Hash>>, j: nat, seen: set<Hash>, max: int)
    requires j < |ys|
    ensures CutAt(xs + ys, |xs| + j, seen, max) <==> CutAt(ys, j, seen + Distinct(xs), max)
  {
    assert (xs + ys)[..|xs| + j] == xs + ys[..j];
    DistinctOfJoin(xs, ys[..j]);
    assert seen + Distinct(xs + ys[..j]) == seen + Distinct(xs) + Distinct(ys[..j]);
  }

  lemma CutInTwoParts(xs: seq<seq<Hash>>, ys: seq<seq<Hash>>, seen: set<Hash>, max: int)
    ensures CutShort(xs + ys, seen, max) <==> CutShort(xs, seen, max) || CutShort(ys, seen + Distinct(xs), max)
  {
    if CutShort(xs + ys, seen, max) {
      var i: nat :| CutAt(xs + ys, i, seen, max);
      if i < |xs| {
        CutInFirstPart(xs, ys, i, seen, max);
      } else {
        CutInSecondPart(xs, ys, i - |xs|, seen, max);
      }
    }
    if CutShort(xs, seen, max) {
      var i: nat :| CutAt(xs, i, seen, max);
      CutInFirstPart(xs, ys, i, seen, max);
    }
    if CutShort(ys, seen + Distinct(xs), max) {
      var j: nat :| CutAt(ys, j, seen + Distinct(xs), max);
      CutInSecondPart(xs, ys, j, seen, max);
    }
  }

  lemma CutOfOne(batch: seq<Hash>, seen: set<Hash>, max: int)
    ensures CutShort([batch], seen, max) <==> |seen| >= max || |seen| + |batch| > max
    ensures Distinct([batch]) == Members(batch)
  {
    assert [batch][..0] == [] && seen + Distinct([]) == seen;
    assert CutAt([batch], 0, seen, max) <==> |seen| >= max || |seen| + |batch| > max;
  }

  // ------------------------------------------------------------------
  // The run
  // ------------------------------------------------------------------

  ghost predicate Counted(a: Progress) {
    !a.truncated && |a.configs| == |a.seen|
  }

  /** The run is flagged exactly if the batches do not fit; otherwise it has taken them all. */
  ghost predicate Fits(lim: Limits, a: Progress, b: Progress, met: Met) {
    && (b.truncated <==> CutShort(met.batches, a.seen, lim.maxConfigs))
    && (!b.truncated ==> Counted(b) && b.visited == met.visited && b.seen == a.seen + Distinct(met.batches))
  }

  lemma NothingMet(lim: Limits, a: Progress, visited: set<Token>)
    requires Counted(a) && a.visited == visited
    ensures Fits(lim, a, a, Met([], visited))
  {
    assert forall i: nat :: !CutAt([], i, a.seen, lim.maxConfigs);
  }

  lemma FitsInTurn(lim: Limits, a: Progress, m: Progress, b: Progress, first: Met, rest: Met)
    requires Fits(lim, a, m, first) && (m.truncated ==> b.truncated) && (!m.truncated ==> Fits(lim, m, b, rest))
    ensures Fits(lim, a, b, Met(first.batches + rest.batches, rest.visited))
  {
    CutInTwoParts(first.batches, rest.batches, a.seen, lim.maxConfigs);
    DistinctOfJoin(first.batches, rest.batches);
  }

  lemma {:induction false} VisitFits(w: World, lim: Limits, t: Token, depth: nat, a: Progress, b: Progress)
    requires Counted(a) && !Full(lim, a) && b == Visit(w, lim, t, depth, a)
    ensures Fits(lim, a, b, VisitMet(w, lim.maxDepth, t, depth, a.visited))
    decreases lim.maxDepth - depth, 0, 0
  {
    if depth <= lim.maxDepth && t !in a.visited && t in w.store {
      var entered := Describe(lim, w.store[t], a.(visited := a.visited + {t}));
      ApplyAllFits(w, lim, t, EligibleSources(w.store[t], depth), depth, entered, b);
    } else {
      NothingMet(lim, b, b.visited);
    }
  }

  lemma {:induction false} ApplyAllFits(w: World, lim: Limits, t: Token, ss: seq<Source>, depth: nat,
                                        a: Progress, b: Progress)
    requires depth <= lim.maxDepth && Counted(a) && b == ApplyAll(w, lim, t, ss, depth, a)
    ensures Fits(lim, a, b, SourcesMet(w, lim.maxDepth, t, ss, depth, a.visited))
    decreases lim.maxDepth - depth - 1, 1, |ss|
  {
    var met := SourcesMet(w, lim.maxDepth, t, ss, depth, a.visited);
    if ss == [] {
      NothingMet(lim, a, a.visited);
    } else {
      var first := SourceMet(w, lim.maxDepth, t, ss[0], depth, a.visited);
      var rest := SourcesMet(w, lim.maxDepth, t, ss[1..], depth, first.visited);
      if Full(lim, a) {
        assert first.batches != [] && met.batches[..0] == [] && a.seen + Distinct([]) == a.seen;
        assert CutAt(met.batches, 0, a.seen, lim.maxConfigs);
      } else {
        var m := ApplySource(w, lim, t, ss[0], depth, a);
        ApplySourceFits(w, lim, t, ss[0], depth, a, m);
        ApplyAllKeeps(w, lim, t, ss[1..], depth, m, b);
        if !m.truncated {
          ApplyAllFits(w, lim, t, ss[1..], depth, m, b);
        }
        FitsInTurn(lim, a, m, b, first, rest);
      }
    }
  }

  lemma {:induction false} ApplySourceFits(w: World, lim: Limits, t: Token, s: Source, depth: nat,
                                           a: Progress, b: Progress)
    requires depth <= lim.maxDepth && !Full(lim, a) && Counted(a) && b == ApplySource(w, lim, t, s, depth, a)
    ensures Fits(lim, a, b, SourceMet(w, lim.maxDepth, t, s, depth, a.visited))
    decreases lim.maxDepth - depth - 1, 0, 1
  {
    if s.kind.Config? {
      if s.kind.loaded {
        EntryFits(lim, ConfigEntry(s, a.comments), a);
      } else {
        NothingBrought(lim, a, a);
      }
    } else {
      match Fetch(w, t, s)
      case Failed =>
        NothingBrought(lim, a, a);
      case Lines(lines) =>
        LinesFit(lim, lines, s, a, b);
      case CommentMap(c) =>
        if s.kind.target.None? {
          NothingBrought(lim, a, a);
        } else {
          var v, m := s.kind.target.value, MergeInto(c, a);
          NothingBrought(lim, a, m);
          VisitFits(w, lim, v, depth + 1, m, b);
          ApplySourceKeeps(w, lim, t, s, depth, a, b);
          FitsInTurn(lim, a, m, b, Met([[]], a.visited), VisitMet(w, lim.maxDepth, v, depth + 1, a.visited));
        }
    }
  }

  lemma NothingBrought(lim: Limits, a: Progress, b: Progress)
    requires !Full(lim, a) && Counted(a) && Counted(b) && b.visited == a.visited && b.seen == a.seen
    ensures Fits(lim, a, b, Met([[]], a.visited))
  {
    CutOfOne([], a.seen, lim.maxConfigs);
  }

  lemma EntryFits(lim: Limits, e: Entry, a: Progress)
    requires !Full(lim, a) && Counted(a)
    ensures Fits(lim, a, AddEntry(e, a), Met([[e.hash]], a.visited))
  {
    CutOfOne([e.hash], a.seen, lim.maxConfigs);
  }

  lemma LinesFit(lim: Limits, lines: seq<Line>, s: Source, a: Progress, b: Progress)
    requires !Full(lim, a) && Counted(a) && b == ApplyLines(lim, lines, s, a)
    ensures Fits(lim, a, b, Met([Digests(lines)], a.visited))
  {
    DigestsOfLines(lines);
    CutOfOne(Digests(lines), a.seen, lim.maxConfigs);
    LinesOnlyAppend(Take(lines, lim.maxConfigs - |a.configs|), s, a);
    LinesCounted(lines, s, a);
  }

  lemma {:induction false} DigestsOfLines(lines: seq<Line>)
    ensures |Digests(lines)| == |lines|
  {
    if lines != [] {
      DigestsOfLines(lines[1..]);
    }
  }

  lemma EntryCounted(e: Entry, a: Progress)
    requires |a.configs| == |a.seen|
    ensures |AddEntry(e, a).configs| == |AddEntry(e, a).seen| && AddEntry(e, a).seen == a.seen + {e.hash}
  {
  }

  lemma {:induction false} LinesCounted(lines: seq<Line>, s: Source, a: Progress)
    requires |a.configs| == |a.seen|
    ensures var b := AddLines(lines, s, a);
            |b.configs| == |b.seen| && b.seen == a.seen + Members(Digests(lines))
  {
    if lines != [] {
      var e := LineEntry(lines[0], s);
      EntryCounted(e, a);
      LinesCounted(lines[1..], s, AddEntry(e, a));
      assert Members(Digests(lines)) == {e.hash} + Members(Digests(lines[1..]));
    }
  }

  /**
   A resolution is flagged as truncated exactly when there is no room at all, or
   some source is met when the distinct digests of those before it leave no room,
   or less than it has lines.
   */
  lemma TruncatedExactlyWhen(w: World, lim: Limits, root: Token)
    ensures Resolve(w, lim, root).truncated <==>
            lim.maxConfigs <= 0 || CutShort(VisitMet(w, lim.maxDepth, root, 0, {}).batches, {}, lim.maxConfigs)
  {
    if lim.maxConfigs > 0 {
      VisitFits(w, lim, root, 0, Start(w, lim, root), Resolve(w, lim, root));
    }
  }
}
