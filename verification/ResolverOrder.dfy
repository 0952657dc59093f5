/**
 The order of the result: without a cut it is the depth-first flattening of the
 sources in index order, with only the first entry of each digest kept.
 */
module ResolverOrder {
  import opened Graphs
  import opened Subscriptions
  import opened Resolver
  import opened ResolverInvariants

  /** All entries met in depth-first order, duplicates included, with the tokens visited and comments gathered. */
  datatype Flat = Flat(entries: seq<Entry>, visited: set<Token>, comments: Comments)

  function Flatten(w: World, lim: Limits, t: Token, depth: nat, visited: set<Token>, comments: Comments): Flat
    decreases lim.maxDepth - depth, 0, 0
  {
    if depth > lim.maxDepth || t in visited then Flat([], visited, comments)
    else if t !in w.store then Flat([], visited + {t}, comments)
    else FlattenAll(w, lim, t, EligibleSources(w.store[t], depth), depth, visited + {t}, comments)
  }

  function FlattenAll(w: World, lim: Limits, t: Token, ss: seq<Source>, depth: nat, visited: set<Token>,
                      comments: Comments): Flat
    requires depth <= lim.maxDepth
    decreases lim.maxDepth - depth - 1, 1, |ss|
  {
    if ss == [] then Flat([], visited, comments)
    else
      var first := FlattenSource(w, lim, t, ss[0], depth, visited, comments);
      var rest := FlattenAll(w, lim, t, ss[1..], depth, first.visited, first.comments);
      rest.(entries := first.entries + rest.entries)
  }

  function FlattenSource(w: World, lim: Limits, t: Token, s: Source, depth: nat, visited: set<Token>,
                         comments: Comments): Flat
    requires depth <= lim.maxDepth
    decreases lim.maxDepth - depth - 1, 0, 1
  {
    match s.kind
    case Config(_, _, loaded) =>
      Flat(if loaded then [ConfigEntry(s, comments)] else [], visited, comments)
    case External(url) =>
      var delivered := (t, s.id) !in w.failing && url.Some? && url.value in w.content;
      Flat(if delivered then LineEntries(w.content[url.value], s) else [], visited, comments)
    case Internal(target) =>
      if (t, s.id) in w.failing || target.None? then Flat([], visited, comments)
      else Flatten(w, lim, target.value, depth + 1, visited, MergeComments(comments, StoredComments(w, target.value)))
  }

  function LineEntries(lines: seq<Line>, s: Source): seq<Entry> {
    if lines == [] then [] else [LineEntry(lines[0], s)] + LineEntries(lines[1..], s)
  }

  /** The entries whose digest is neither in `seen` nor that of an earlier entry. */
  function KeepFirst(es: seq<Entry>, seen: set<Hash>): seq<Entry> {
    if es == [] then []
    else if es[0].hash in seen then KeepFirst(es[1..], seen)
    else [es[0]] + KeepFirst(es[1..], seen + {es[0].hash})
  }

  method Deduplicate(configs: seq<Entry>) returns (unique: seq<Entry>)
    ensures unique == KeepFirst(configs, {})
  {
    var seen := {};
    unique := [];
    for i := 0 to |configs|
      invariant unique + KeepFirst(configs[i..], seen) == KeepFirst(configs, {})
    {
      var e, before := configs[i], unique;
      assert configs[i..][0] == e && configs[i..][1..] == configs[i + 1..];
      if e.hash !in seen {
        assert before + ([e] + KeepFirst(configs[i + 1..], seen + {e.hash})) ==
               before + [e] + KeepFirst(configs[i + 1..], seen + {e.hash});
        seen := seen + {e.hash};
        unique := unique + [e];
      }
    }
  }

  lemma {:induction false} KeepFirstOfAppend(es: seq<Entry>, fs: seq<Entry>, seen: set<Hash>)
    ensures KeepFirst(es + fs, seen) == KeepFirst(es, seen) + KeepFirst(fs, seen + HashesOf(es))
  {
    if es == [] {
      assert es + fs == fs && seen + HashesOf(es) == seen;
    } else {
      assert (es + fs)[1..] == es[1..] + fs;
      assert HashesOf(es) == {es[0].hash} + HashesOf(es[1..]) by { assert es == [es[0]] + es[1..]; }
      if es[0].hash in seen {
        KeepFirstOfAppend(es[1..], fs, seen);
        assert seen + HashesOf(es[1..]) == seen + HashesOf(es);
      } else {
        KeepFirstOfAppend(es[1..], fs, seen + {es[0].hash});
        assert seen + {es[0].hash} + HashesOf(es[1..]) == seen + HashesOf(es);
      }
    }
  }

  /** `b` is `a` followed by the new entries of `flat`, duplicates removed. */
  ghost predicate Appends(a: Progress, flat: Flat, b: Progress) {
    && b.configs == a.configs + KeepFirst(flat.entries, a.seen)
    && b.seen == a.seen + HashesOf(flat.entries)
    && b.visited == flat.visited && b.comments == flat.comments
  }

  lemma AddEntryAppends(e: Entry, a: Progress)
    ensures Appends(a, Flat([e], a.visited, a.comments), AddEntry(e, a))
  {
    assert KeepFirst([e], a.seen) == if e.hash in a.seen then KeepFirst([e][1..], a.seen)
                                     else [e] + KeepFirst([e][1..], a.seen + {e.hash});
    assert HashesOf([e]) == {e.hash};
  }

  lemma AppendsInTurn(a: Progress, first: Flat, m: Progress, rest: Flat, b: Progress)
    requires Appends(a, first, m) && Appends(m, rest, b)
    ensures Appends(a, rest.(entries := first.entries + rest.entries), b)
  {
    KeepFirstOfAppend(first.entries, rest.entries, a.seen);
    assert HashesOf(first.entries + rest.entries) == HashesOf(first.entries) + HashesOf(rest.entries);
  }

  lemma {:induction false} AddLinesAppends(lines: seq<Line>, s: Source, a: Progress)
    ensures Appends(a, Flat(LineEntries(lines, s), a.visited, a.comments), AddLines(lines, s, a))
  {
    if lines != [] {
      var e := LineEntry(lines[0], s);
      var m := AddEntry(e, a);
      AddEntryAppends(e, a);
      AddLinesAppends(lines[1..], s, m);
      AppendsInTurn(a, Flat([e], a.visited, a.comments), m, Flat(LineEntries(lines[1..], s), m.visited, m.comments),
                    AddLines(lines, s, a));
    }
  }

  lemma {:induction false} VisitAppends(w: World, lim: Limits, t: Token, depth: nat, a: Progress, b: Progress)
    requires b == Visit(w, lim, t, depth, a) && !b.truncated
    ensures Appends(a, Flatten(w, lim, t, depth, a.visited, a.comments), b)
    decreases lim.maxDepth - depth, 0, 0
  {
    assert KeepFirst([], a.seen) == [] && HashesOf([]) == {};
    if depth <= lim.maxDepth && t !in a.visited && t in w.store {
      var entered := Describe(lim, w.store[t], a.(visited := a.visited + {t}));
      ApplyAllAppends(w, lim, t, EligibleSources(w.store[t], depth), depth, entered, b);
    }
  }

  lemma {:induction false} ApplyAllAppends(w: World, lim: Limits, t: Token, ss: seq<Source>, depth: nat, a: Progress,
                                           b: Progress)
    requires depth <= lim.maxDepth && b == ApplyAll(w, lim, t, ss, depth, a) && !b.truncated
    ensures Appends(a, FlattenAll(w, lim, t, ss, depth, a.visited, a.comments), b)
    decreases lim.maxDepth - depth - 1, 1, |ss|
  {
    if ss == [] {
      assert KeepFirst([], a.seen) == [] && HashesOf([]) == {};
    } else {
      var m := ApplySource(w, lim, t, ss[0], depth, a);
      ApplyAllKeeps(w, lim, t, ss[1..], depth, m, b);
      ApplySourceAppends(w, lim, t, ss[0], depth, a, m);
      ApplyAllAppends(w, lim, t, ss[1..], depth, m, b);
      var first := FlattenSource(w, lim, t, ss[0], depth, a.visited, a.comments);
      AppendsInTurn(a, first, m, FlattenAll(w, lim, t, ss[1..], depth, m.visited, m.comments), b);
    }
  }

  lemma {:induction false} ApplySourceAppends(w: World, lim: Limits, t: Token, s: Source, depth: nat, a: Progress,
                                              b: Progress)
    requires depth <= lim.maxDepth && |a.configs| < lim.maxConfigs
    requires b == ApplySource(w, lim, t, s, depth, a) && !b.truncated
    ensures Appends(a, FlattenSource(w, lim, t, s, depth, a.visited, a.comments), b)
    decreases lim.maxDepth - depth - 1, 0, 1
  {
    assert KeepFirst([], a.seen) == [] && HashesOf([]) == {};
    if s.kind.Config? {
      if s.kind.loaded {
        AddEntryAppends(ConfigEntry(s, a.comments), a);
      }
    } else {
      match Fetch(w, t, s)
      case Failed =>
      case Lines(lines) =>
        AddLinesAppends(lines, s, a);
      case CommentMap(c) =>
        if s.kind.target.Some? {
          VisitAppends(w, lim, s.kind.target.value, depth + 1, MergeInto(c, a), b);
        }
    }
  }

  /** Without truncation the result is the flattening with first occurrences kept, in order. */
  lemma UntruncatedResolutionIsDeduplicatedFlattening(w: World, lim: Limits, root: Token)
    requires !Resolve(w, lim, root).truncated
    ensures Resolve(w, lim, root).configs ==
            KeepFirst(Flatten(w, lim, root, 0, {}, StoredComments(w, root)).entries, {})
  {
    VisitAppends(w, lim, root, 0, Start(w, lim, root), Resolve(w, lim, root));
  }

  // ------------------------------------------------------------------
  // What keeping first occurrences means
  // ------------------------------------------------------------------

  /** Position `i` holds the first entry of its digest. */
  ghost predicate IsFirst(es: seq<Entry>, i: nat) {
    i < |es| && forall j :: 0 <= j < i ==> es[j].hash != es[i].hash
  }

  /** From position `i` on, what is kept are the entries at first positions, in their order. */
  lemma {:induction false} KeptFrom(es: seq<Entry>, i: nat) returns (at: seq<nat>)
    requires i <= |es|
    ensures var kept := KeepFirst(es[i..], HashesOf(es[..i]));
            |at| == |kept| && forall k :: 0 <= k < |at| ==> at[k] < |es| && es[at[k]] == kept[k]
    ensures forall k, l :: 0 <= k < l < |at| ==> at[k] < at[l]
    ensures forall j: nat :: j in at <==> i <= j && IsFirst(es, j)
    decreases |es| - i
  {
    at := [];
    if i < |es| {
      var rest := KeptFrom(es, i + 1);
      SeenBefore(es, i);
      HashesUpTo(es, i);
      assert es[i..][1..] == es[i + 1..];
      if es[i].hash in HashesOf(es[..i]) {
        assert HashesOf(es[..i + 1]) == HashesOf(es[..i]);
        at := rest;
      } else {
        assert forall k :: 0 <= k < |rest| ==> rest[k] in rest;
        at := [i] + rest;
      }
    }
  }

  lemma HashesUpTo(es: seq<Entry>, i: nat)
    requires i < |es|
    ensures HashesOf(es[..i + 1]) == HashesOf(es[..i]) + {es[i].hash}
  {
    assert es[..i + 1] == es[..i] + [es[i]];
  }

  lemma SeenBefore(es: seq<Entry>, i: nat)
    requires i < |es|
    ensures es[i].hash in HashesOf(es[..i]) <==> !IsFirst(es, i)
  {
    if !IsFirst(es, i) {
      var j :| 0 <= j < i && es[j].hash == es[i].hash;
      assert es[..i][j] in es[..i];
    }
  }

  /** Without truncation, the result lists the flattened entries at the first position of each digest. */
  lemma UntruncatedResolutionListsFirstOccurrences(w: World, lim: Limits, root: Token) returns (at: seq<nat>)
    requires !Resolve(w, lim, root).truncated
    ensures var all, result := Flatten(w, lim, root, 0, {}, StoredComments(w, root)).entries,
                               Resolve(w, lim, root).configs;
            && |at| == |result| && (forall k :: 0 <= k < |at| ==> at[k] < |all| && all[at[k]] == result[k])
            && (forall k, l :: 0 <= k < l < |at| ==> at[k] < at[l])
            && forall j: nat :: j in at <==> IsFirst(all, j)
  {
    var all := Flatten(w, lim, root, 0, {}, StoredComments(w, root)).entries;
    UntruncatedResolutionIsDeduplicatedFlattening(w, lim, root);
    at := KeptFrom(all, 0);
    assert all[0..] == all && HashesOf(all[..0]) == {};
  }
}
