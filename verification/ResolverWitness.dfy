/**
 Where the entries of a resolution come from, with no assumption on limits,
 filters or failures, and which comment each of them carries.
 */
module ResolverWitness {
  import opened Graphs
  import opened Subscriptions
  import opened Resolver
  import opened ResolverInvariants

  /** `s` in subscription `t`, at depth `d`, is eligible, was fetched, and refers to `v`. */
  ghost predicate Follows(w: World, t: Token, d: nat, s: Source, v: Token) {
    t in w.store && s in w.store[t].sources && Eligible(s, d) && RefersTo(s, v) && (t, s.id) !in w.failing
  }

  ghost predicate Linked(w: World, t: Token, d: nat, v: Token) {
    exists s :: Follows(w, t, d, s, v)
  }

  /** A chain of eligible references from the root: the token at position `i` is at depth `i`. */
  ghost predicate EligiblePath(w: World, root: Token, p: seq<Token>) {
    && p != [] && p[0] == root
    && forall i :: 0 <= i < |p| - 1 ==> Linked(w, p[i], i, p[i + 1])
  }

  ghost predicate PathTo(w: World, root: Token, p: seq<Token>, t: Token, d: nat) {
    EligiblePath(w, root, p) && |p| == d + 1 && p[d] == t
  }

  /** The comment maps of all subscriptions on the path have been merged. */
  ghost predicate PathMerged(w: World, p: seq<Token>, merged: seq<Comments>) {
    forall t :: t in p ==> StoredComments(w, t) in merged
  }

  /** The text of a config: its data, and after a `#` its comment, if any. */
  ghost predicate ReadsAs(config: string, data: string, comment: string) {
    if comment == "" then config == data else config == data + "#" + comment
  }

  /**
   `e` carries the first non-empty comment among the first `k` maps merged,
   which include the maps of every subscription on the path to it.
   */
  ghost predicate CommentedAt(w: World, p: seq<Token>, merged: seq<Comments>, k: nat, data: string, e: Entry) {
    && 1 <= k <= |merged| && PathMerged(w, p, merged[..k])
    && ReadsAs(e.config, data, FirstNonEmpty(merged[..k], e.hash))
  }

  /** `e` is what source `s` of the subscription at the end of path `p` produces. */
  ghost predicate Produces(w: World, merged: seq<Comments>, p: seq<Token>, s: Source, e: Entry)
    requires p != []
  {
    && e.isHidden == s.isHidden && e.maxDepth == s.maxDepth
    && match s.kind
       case Config(hash, data, loaded) => loaded && e.hash == hash && exists k :: CommentedAt(w, p, merged, k, data, e)
       case External(url) =>
         && (p[|p| - 1], s.id) !in w.failing && url.Some? && url.value in w.content
         && exists line :: line in w.content[url.value] && e.hash == line.hash && e.config == line.text
       case Internal(_) => false
  }

  /** `e` comes from an eligible source of the subscription at the end of an eligible path. */
  ghost predicate Witnessed(w: World, lim: Limits, root: Token, merged: seq<Comments>, e: Entry) {
    exists p, s :: WitnessedBy(w, lim, root, merged, e, p, s)
  }

  ghost predicate WitnessedBy(w: World, lim: Limits, root: Token, merged: seq<Comments>, e: Entry, p: seq<Token>,
                              s: Source) {
    && EligiblePath(w, root, p) && |p| - 1 <= lim.maxDepth
    && p[|p| - 1] in w.store && s in w.store[p[|p| - 1]].sources && Eligible(s, |p| - 1)
    && Produces(w, merged, p, s, e)
  }

  ghost predicate TooLongPath(w: World, lim: Limits, root: Token) {
    exists p :: EligiblePath(w, root, p) && |p| - 1 == lim.maxDepth + 1
  }

  ghost predicate VisitedByPath(w: World, lim: Limits, root: Token, t: Token) {
    exists p :: EligiblePath(w, root, p) && |p| - 1 <= lim.maxDepth && p[|p| - 1] == t
  }

  /** Everything in the accumulator is accounted for. */
  ghost predicate Accounted(w: World, lim: Limits, root: Token, a: Progress) {
    && Sound(lim, a) && a.merged != []
    && (forall e :: e in a.configs ==> Witnessed(w, lim, root, a.merged, e))
    && (forall t :: t in a.visited ==> VisitedByPath(w, lim, root, t))
    && (a.depthExceeded ==> TooLongPath(w, lim, root) || lim.maxDepth < 0)
  }

  lemma MoreMergesStillWitnessed(w: World, lim: Limits, root: Token, merged: seq<Comments>, after: seq<Comments>,
                                 e: Entry)
    requires Witnessed(w, lim, root, merged, e) && merged <= after
    ensures Witnessed(w, lim, root, after, e)
  {
    var p, s :| WitnessedBy(w, lim, root, merged, e, p, s);
    if s.kind.Config? {
      var k: nat :| CommentedAt(w, p, merged, k, s.kind.data, e);
      assert merged[..k] == after[..k];
      assert CommentedAt(w, p, after, k, s.kind.data, e);
    }
    assert WitnessedBy(w, lim, root, after, e, p, s);
  }

  lemma MergeIsAccounted(w: World, lim: Limits, root: Token, c: Comments, a: Progress)
    requires Accounted(w, lim, root, a)
    ensures Accounted(w, lim, root, MergeInto(c, a))
  {
    MergeIntoKeeps(lim, c, a);
    var b := MergeInto(c, a);
    forall e | e in b.configs
      ensures Witnessed(w, lim, root, b.merged, e)
    {
      MoreMergesStillWitnessed(w, lim, root, a.merged, b.merged, e);
    }
  }

  lemma AddEntryIsAccounted(w: World, lim: Limits, root: Token, e: Entry, a: Progress)
    requires Accounted(w, lim, root, a) && |a.configs| < lim.maxConfigs && Witnessed(w, lim, root, a.merged, e)
    ensures Accounted(w, lim, root, AddEntry(e, a))
  {
    AddEntryKeeps(lim, e, a);
  }

  lemma {:induction false} AddLinesIsAccounted(w: World, lim: Limits, root: Token, lines: seq<Line>, s: Source,
                                               a: Progress)
    requires Accounted(w, lim, root, a) && |a.configs| + |lines| <= lim.maxConfigs
    requires forall line :: line in lines ==> Witnessed(w, lim, root, a.merged, LineEntry(line, s))
    ensures Accounted(w, lim, root, AddLines(lines, s, a))
  {
    if lines != [] {
      var e := LineEntry(lines[0], s);
      assert lines[0] in lines;
      AddEntryIsAccounted(w, lim, root, e, a);
      assert forall line :: line in lines[1..] ==> line in lines;
      AddLinesIsAccounted(w, lim, root, lines[1..], s, AddEntry(e, a));
    }
  }

  lemma {:induction false} VisitIsAccounted(w: World, lim: Limits, root: Token, t: Token, depth: nat,
                                            p: seq<Token>, a: Progress, b: Progress)
    requires Accounted(w, lim, root, a) && b == Visit(w, lim, t, depth, a)
    requires PathMerged(w, p, a.merged) && PathTo(w, root, p, t, depth)
    requires depth == 0 || depth <= lim.maxDepth + 1
    ensures Accounted(w, lim, root, b)
    decreases lim.maxDepth - depth, 0, 0
  {
    if |a.configs| < lim.maxConfigs && depth <= lim.maxDepth && t !in a.visited {
      var entered := a.(visited := a.visited + {t});
      assert VisitedByPath(w, lim, root, t);
      assert Accounted(w, lim, root, entered);
      if t in w.store {
        EligibleElements(w.store[t], depth);
        ApplyAllIsAccounted(w, lim, root, t, EligibleSources(w.store[t], depth), depth, p,
                            Describe(lim, w.store[t], entered), b);
      }
    }
  }

  lemma {:induction false} ApplyAllIsAccounted(w: World, lim: Limits, root: Token, t: Token, ss: seq<Source>,
                                               depth: nat,
                                               p: seq<Token>, a: Progress, b: Progress)
    requires depth <= lim.maxDepth && Accounted(w, lim, root, a) && b == ApplyAll(w, lim, t, ss, depth, a)
    requires t in w.store && forall s :: s in ss ==> s in w.store[t].sources && Eligible(s, depth)
    requires PathMerged(w, p, a.merged) && PathTo(w, root, p, t, depth)
    ensures Accounted(w, lim, root, b)
    decreases lim.maxDepth - depth - 1, 1, |ss|
  {
    if ss != [] && |a.configs| < lim.maxConfigs {
      var m := ApplySource(w, lim, t, ss[0], depth, a);
      assert ss[0] in ss && forall s :: s in ss[1..] ==> s in ss;
      ApplySourceIsAccounted(w, lim, root, t, ss[0], depth, p, a, m);
      ApplySourceKeeps(w, lim, t, ss[0], depth, a, m);
      ApplyAllIsAccounted(w, lim, root, t, ss[1..], depth, p, m, b);
    }
  }

  lemma {:induction false} ApplySourceIsAccounted(w: World, lim: Limits, root: Token, t: Token, s: Source, depth: nat,
                                                  p: seq<Token>, a: Progress, b: Progress)
    requires depth <= lim.maxDepth && |a.configs| < lim.maxConfigs && Accounted(w, lim, root, a)
    requires t in w.store && s in w.store[t].sources && Eligible(s, depth) && PathTo(w, root, p, t, depth)
    requires PathMerged(w, p, a.merged) && b == ApplySource(w, lim, t, s, depth, a)
    ensures Accounted(w, lim, root, b)
    decreases lim.maxDepth - depth - 1, 0, 1
  {
    if s.kind.Config? {
      if s.kind.loaded {
        var e := ConfigEntry(s, a.comments);
        assert a.merged[..|a.merged|] == a.merged;
        assert CommentedAt(w, p, a.merged, |a.merged|, s.kind.data, e);
        assert WitnessedBy(w, lim, root, a.merged, e, p, s);
        AddEntryIsAccounted(w, lim, root, e, a);
      }
    } else {
      match Fetch(w, t, s)
      case Failed =>
      case Lines(lines) =>
        var taken := Take(lines, lim.maxConfigs - |a.configs|);
        forall line | line in taken
          ensures Witnessed(w, lim, root, a.merged, LineEntry(line, s))
        {
          assert WitnessedBy(w, lim, root, a.merged, LineEntry(line, s), p, s);
        }
        AddLinesIsAccounted(w, lim, root, taken, s, a);
      case CommentMap(c) =>
        if s.kind.target.Some? {
          var v := s.kind.target.value;
          MergeIsAccounted(w, lim, root, c, a);
          assert Follows(w, p[depth], depth, s, v);
          ExtendPath(w, root, p, t, depth, s, v);
          assert StoredComments(w, v) in MergeInto(c, a).merged;
          VisitIsAccounted(w, lim, root, v, depth + 1, p + [v], MergeInto(c, a), b);
        }
    }
  }

  lemma ExtendPath(w: World, root: Token, p: seq<Token>, t: Token, depth: nat, s: Source, v: Token)
    requires PathTo(w, root, p, t, depth) && Follows(w, t, depth, s, v)
    ensures PathTo(w, root, p + [v], v, depth + 1)
  {
    var q := p + [v];
    assert Linked(w, t, depth, v);
    forall i | 0 <= i < |q| - 1
      ensures Linked(w, q[i], i, q[i + 1])
    {
      if i < |p| - 1 {
        assert Linked(w, p[i], i, p[i + 1]);
      }
    }
  }

  /**
   In every resolution each entry has a witness path of eligible sources within
   the depth limit, so does each visited token, and `depthExceeded` is set only
   where an eligible path is longer than the limit.
   */
  lemma EveryEntryIsWitnessed(w: World, lim: Limits, root: Token)
    ensures var b := Resolve(w, lim, root);
            && (forall e :: e in b.configs ==> Witnessed(w, lim, root, b.merged, e))
            && (forall t :: t in b.visited ==> VisitedByPath(w, lim, root, t))
            && (b.depthExceeded ==> TooLongPath(w, lim, root) || lim.maxDepth < 0)
  {
    StartIsSound(w, lim, root);
    assert PathTo(w, root, [root], root, 0);
    VisitIsAccounted(w, lim, root, root, 0, [root], Start(w, lim, root), Resolve(w, lim, root));
  }

  lemma {:induction false} NoCommentAnywhere(ms: seq<Comments>, h: Hash, m: Comments)
    requires FirstNonEmpty(ms, h) == "" && m in ms
    ensures CommentOf(m, h) == ""
  {
    if m != ms[0] {
      NoCommentAnywhere(ms[1..], h, m);
    }
  }

  /**
   A CONFIG entry carries the root's comment when the root has one, and no
   comment only when no subscription on the path to it has one.
   */
  lemma CommentPrecedence(w: World, lim: Limits, root: Token, e: Entry)
    requires e in Resolve(w, lim, root).configs
    ensures exists p, s :: && WitnessedBy(w, lim, root, Resolve(w, lim, root).merged, e, p, s)
                           && (s.kind.Config? ==> CommentChosen(w, root, p, s.kind.data, e))
  {
    var merged := Resolve(w, lim, root).merged;
    EveryEntryIsWitnessed(w, lim, root);
    ResolutionIsSound(w, lim, root);
    var p, s :| WitnessedBy(w, lim, root, merged, e, p, s);
    if s.kind.Config? {
      var k: nat :| CommentedAt(w, p, merged, k, s.kind.data, e);
      var comment := FirstNonEmpty(merged[..k], e.hash);
      assert merged[..k][0] == StoredComments(w, root);
      if comment == "" {
        forall t | t in p
          ensures CommentOf(StoredComments(w, t), e.hash) == ""
        {
          NoCommentAnywhere(merged[..k], e.hash, StoredComments(w, t));
        }
      }
      assert CommentedWith(w, root, p, s.kind.data, e, comment);
    }
  }

  ghost predicate CommentChosen(w: World, root: Token, p: seq<Token>, data: string, e: Entry) {
    exists comment :: CommentedWith(w, root, p, data, e, comment)
  }

  ghost predicate CommentedWith(w: World, root: Token, p: seq<Token>, data: string, e: Entry, comment: string) {
    && ReadsAs(e.config, data, comment)
    && (CommentOf(StoredComments(w, root), e.hash) != "" ==> comment == CommentOf(StoredComments(w, root), e.hash))
    && (comment == "" ==> forall t :: t in p ==> CommentOf(StoredComments(w, t), e.hash) == "")
  }

  /** A path of eligible references is a walk of the reference graph. */
  lemma EligiblePathIsWalk(w: World, root: Token, p: seq<Token>)
    requires EligiblePath(w, root, p)
    ensures Walk(ReferenceGraph(w.store), p)
  {
    forall i | 0 <= i < |p| - 1
      ensures p[i + 1] in Refs(ReferenceGraph(w.store), p[i])
    {
      assert Linked(w, p[i], i, p[i + 1]);
      ReferenceGraphEdges(w.store, p[i], p[i + 1]);
    }
  }

  /** When every walk from the root has at most `maxDepth` steps, the depth limit is never hit. */
  lemma ShortWalksNeverExceedDepth(w: World, lim: Limits, root: Token)
    requires lim.maxDepth >= 0
    requires forall p :: Walk(ReferenceGraph(w.store), p) && p[0] == root ==> |p| <= lim.maxDepth + 1
    ensures !Resolve(w, lim, root).depthExceeded
  {
    EveryEntryIsWitnessed(w, lim, root);
    if TooLongPath(w, lim, root) {
      var p :| EligiblePath(w, root, p) && |p| - 1 == lim.maxDepth + 1;
      EligiblePathIsWalk(w, root, p);
    }
  }
}
