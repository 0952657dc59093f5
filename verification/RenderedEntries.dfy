/**
 The text of resolved CONFIG entries: splitting it gives back the stored config
 and the comment that was chosen for it.
 */
module RenderedEntries {
  import opened Graphs
  import opened Subscriptions
  import opened Text
  import opened Resolver
  import opened ResolverInvariants
  import opened ResolverWitness
  import Normalization = SourceNormalization

  /** Config data as the service stores it: stripped, and free of comments. */
  ghost predicate BareConfig(data: string) {
    Stripped(data) && '#' !in data
  }

  /** `e` splits into the data and the first non-empty comment among the first `k` maps merged. */
  ghost predicate SplitsInto(w: World, p: seq<Token>, merged: seq<Comments>, k: nat, data: string, e: Entry) {
    && 1 <= k <= |merged| && PathMerged(w, p, merged[..k])
    && var comment := FirstNonEmpty(merged[..k], e.hash);
    && Normalization.Split(e.config).0 == data
    && Normalization.Split(e.config).1 == if comment == "" then None else Some(Strip(comment))
  }

  lemma ReadConfigSplits(config: string, data: string, comment: string)
    requires BareConfig(data) && ReadsAs(config, data, comment)
    ensures Normalization.Split(config) == (data, if comment == "" then None else Some(Strip(comment)))
  {
    StrippedNeedsNoStrip(data);
    if comment != "" {
      Normalization.SplitParts(data, comment);
    }
  }

  /**
   Every CONFIG entry of every resolution splits back: into the data of a source
   that yields it, and the first non-empty comment merged so far, stripped. When
   the root has a comment for it, the entry is the data, a `#` and that comment.
   */
  lemma ConfigEntriesSplitBack(w: World, lim: Limits, root: Token, e: Entry)
    requires e in Resolve(w, lim, root).configs
    ensures exists p, s :: YieldedBy(w, lim, root, Resolve(w, lim, root).merged, e, p, s)
  {
    var merged := Resolve(w, lim, root).merged;
    EveryEntryIsWitnessed(w, lim, root);
    ResolutionIsSound(w, lim, root);
    var p, s :| WitnessedBy(w, lim, root, merged, e, p, s);
    if s.kind.Config? {
      var k: nat :| CommentedAt(w, p, merged, k, s.kind.data, e);
      assert merged[..k][0] == StoredComments(w, root);
      if BareConfig(s.kind.data) {
        ReadConfigSplits(e.config, s.kind.data, FirstNonEmpty(merged[..k], e.hash));
        assert SplitsInto(w, p, merged, k, s.kind.data, e);
      }
    }
    assert YieldedBy(w, lim, root, merged, e, p, s);
  }

  ghost predicate YieldedBy(w: World, lim: Limits, root: Token, merged: seq<Comments>, e: Entry,
                            p: seq<Token>, s: Source) {
    && WitnessedBy(w, lim, root, merged, e, p, s)
    && (s.kind.Config? && BareConfig(s.kind.data) ==> exists k :: SplitsInto(w, p, merged, k, s.kind.data, e))
    && (s.kind.Config? ==>
          var comment := CommentOf(StoredComments(w, root), e.hash);
          comment != "" ==> e.config == s.kind.data + "#" + comment)
  }
}
