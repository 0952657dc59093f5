/**
 What every resolution keeps: results only grow, no digest appears twice, the
 count limit holds, and a comment once found is never replaced.
 */
module ResolverInvariants {
  import opened Graphs
  import opened Subscriptions
  import opened Resolver

  /** The digests of a list of entries. */
  function HashesOf(es: seq<Entry>): set<Hash> {
    set e | e in es :: e.hash
  }

  predicate Full(lim: Limits, a: Progress) {
    |a.configs| >= lim.maxConfigs
  }

  ghost predicate DistinctHashes(es: seq<Entry>) {
    forall i, j :: 0 <= i < j < |es| ==> es[i].hash != es[j].hash
  }

  function FirstNonEmpty(ms: seq<Comments>, h: Hash): string {
    if ms == [] then "" else if CommentOf(ms[0], h) != "" then CommentOf(ms[0], h) else FirstNonEmpty(ms[1..], h)
  }

  ghost predicate Sound(lim: Limits, a: Progress) {
    && DistinctHashes(a.configs) && a.seen == HashesOf(a.configs)
    && (a.configs == [] || |a.configs| <= lim.maxConfigs)
    && forall h :: CommentOf(a.comments, h) == FirstNonEmpty(a.merged, h)
  }

  ghost predicate Grows(a: Progress, b: Progress) {
    && a.configs <= b.configs && a.seen <= b.seen && a.visited <= b.visited && a.merged <= b.merged
    && (a.truncated ==> b.truncated) && (a.depthExceeded ==> b.depthExceeded)
  }

  ghost predicate Keeps(lim: Limits, a: Progress, b: Progress) {
    Grows(a, b) && (Sound(lim, a) ==> Sound(lim, b))
  }

  lemma AddEntryKeeps(lim: Limits, e: Entry, a: Progress)
    requires |a.configs| < lim.maxConfigs
    ensures Keeps(lim, a, AddEntry(e, a)) && |AddEntry(e, a).configs| <= |a.configs| + 1
  {
    var b := AddEntry(e, a);
    if Sound(lim, a) && e.hash !in a.seen {
      forall i | 0 <= i < |a.configs|
        ensures a.configs[i].hash != e.hash
      {
        assert a.configs[i] in a.configs;
      }
      assert forall x :: x in b.configs <==> x in a.configs || x == e;
      assert b.seen == HashesOf(b.configs);
    }
  }

  /** Adding lines appends to the result and touches nothing else. */
  lemma {:induction false} LinesOnlyAppend(lines: seq<Line>, s: Source, a: Progress)
    ensures var b := AddLines(lines, s, a);
            && a.configs <= b.configs && a.seen <= b.seen && |b.configs| <= |a.configs| + |lines|
            && b == a.(configs := b.configs, seen := b.seen)
  {
    if lines != [] {
      LinesOnlyAppend(lines[1..], s, AddEntry(LineEntry(lines[0], s), a));
    }
  }

  lemma {:induction false} AddLinesKeeps(lim: Limits, lines: seq<Line>, s: Source, a: Progress)
    requires |a.configs| + |lines| <= lim.maxConfigs
    ensures Keeps(lim, a, AddLines(lines, s, a)) && |AddLines(lines, s, a).configs| <= |a.configs| + |lines|
  {
    if lines != [] {
      AddEntryKeeps(lim, LineEntry(lines[0], s), a);
      AddLinesKeeps(lim, lines[1..], s, AddEntry(LineEntry(lines[0], s), a));
    }
  }

  lemma {:induction false} FirstNonEmptyOfAppend(ms: seq<Comments>, c: Comments, h: Hash)
    ensures FirstNonEmpty(ms + [c], h) == if FirstNonEmpty(ms, h) != "" then FirstNonEmpty(ms, h) else CommentOf(c, h)
  {
    if ms == [] {
      assert ms + [c] == [c];
      assert [c][1..] == [];
    } else {
      assert (ms + [c])[1..] == ms[1..] + [c];
      FirstNonEmptyOfAppend(ms[1..], c, h);
    }
  }

  lemma MergeIntoKeeps(lim: Limits, c: Comments, a: Progress)
    ensures Keeps(lim, a, MergeInto(c, a))
  {
    var b := MergeInto(c, a);
    if Sound(lim, a) {
      forall h
        ensures CommentOf(b.comments, h) == FirstNonEmpty(b.merged, h)
      {
        FirstNonEmptyOfAppend(a.merged, c, h);
        assert CommentOf(a.comments, h) == FirstNonEmpty(a.merged, h);
      }
    }
  }

  lemma {:induction false} VisitKeeps(w: World, lim: Limits, t: Token, depth: nat, a: Progress, b: Progress)
    requires b == Visit(w, lim, t, depth, a)
    ensures Keeps(lim, a, b)
    decreases lim.maxDepth - depth, 0, 0
  {
    if |a.configs| < lim.maxConfigs && depth <= lim.maxDepth && t !in a.visited && t in w.store {
      var entered := Describe(lim, w.store[t], a.(visited := a.visited + {t}));
      assert Keeps(lim, a, entered);
      ApplyAllKeeps(w, lim, t, EligibleSources(w.store[t], depth), depth, entered, b);
    }
  }

  lemma {:induction false} ApplyAllKeeps(w: World, lim: Limits, t: Token, ss: seq<Source>, depth: nat, a: Progress,
                                         b: Progress)
    requires depth <= lim.maxDepth && b == ApplyAll(w, lim, t, ss, depth, a)
    ensures Keeps(lim, a, b)
    decreases lim.maxDepth - depth - 1, 1, |ss|
  {
    if ss != [] && |a.configs| < lim.maxConfigs {
      var m := ApplySource(w, lim, t, ss[0], depth, a);
      ApplySourceKeeps(w, lim, t, ss[0], depth, a, m);
      ApplyAllKeeps(w, lim, t, ss[1..], depth, m, b);
    }
  }

  lemma {:induction false} ApplySourceKeeps(w: World, lim: Limits, t: Token, s: Source, depth: nat, a: Progress,
                                            b: Progress)
    requires depth <= lim.maxDepth && |a.configs| < lim.maxConfigs && b == ApplySource(w, lim, t, s, depth, a)
    ensures Keeps(lim, a, b)
    decreases lim.maxDepth - depth - 1, 0, 1
  {
    if s.kind.Config? {
      if s.kind.loaded {
        AddEntryKeeps(lim, ConfigEntry(s, a.comments), a);
      }
    } else {
      match Fetch(w, t, s)
      case Failed =>
      case Lines(lines) =>
        AddLinesKeeps(lim, Take(lines, lim.maxConfigs - |a.configs|), s, a);
      case CommentMap(c) =>
        if s.kind.target.Some? {
          MergeIntoKeeps(lim, c, a);
          VisitKeeps(w, lim, s.kind.target.value, depth + 1, MergeInto(c, a), b);
        }
    }
  }

  lemma StartIsSound(w: World, lim: Limits, root: Token)
    ensures Sound(lim, Start(w, lim, root))
  {
    var a := Start(w, lim, root);
    assert a.merged[1..] == [];
  }

  /**
   In every resolution: no digest twice, `seen` is exactly the digests present,
   at most `maxConfigs` entries, and each comment in use is the first non-empty
   one in the order the comment maps were merged, the root's own map first.
   */
  lemma ResolutionIsSound(w: World, lim: Limits, root: Token)
    ensures Sound(lim, Resolve(w, lim, root))
    ensures var merged := Resolve(w, lim, root).merged;
            merged != [] && merged[0] == StoredComments(w, root)
  {
    StartIsSound(w, lim, root);
    VisitKeeps(w, lim, root, 0, Start(w, lim, root), Resolve(w, lim, root));
  }

  lemma {:induction false} FirstNonEmptyOfPrefix(ms: seq<Comments>, ns: seq<Comments>, h: Hash)
    requires ms <= ns && FirstNonEmpty(ms, h) != ""
    ensures FirstNonEmpty(ns, h) == FirstNonEmpty(ms, h)
  {
    if CommentOf(ms[0], h) == "" {
      FirstNonEmptyOfPrefix(ms[1..], ns[1..], h);
    }
  }

  /** Once the shared map holds a non-empty comment, no later visit changes it. */
  lemma CommentsSettle(w: World, lim: Limits, t: Token, depth: nat, a: Progress, h: Hash)
    requires Sound(lim, a) && CommentOf(a.comments, h) != ""
    ensures CommentOf(Visit(w, lim, t, depth, a).comments, h) == CommentOf(a.comments, h)
  {
    var b := Visit(w, lim, t, depth, a);
    VisitKeeps(w, lim, t, depth, a, b);
    FirstNonEmptyOfPrefix(a.merged, b.merged, h);
  }
}
