/**
 When the result under a smaller limit is a prefix of the result under a larger
 one. A cut that leaves room puts the larger run ahead of the smaller one.
 */
module ResolverPrefix {
  import opened Graphs
  import opened Subscriptions
  import opened Resolver
  import opened ResolverInvariants
  import opened ResolverLimits
  import opened ResolverOrder

  // ------------------------------------------------------------------
  // Two runs, the larger one ahead
  // ------------------------------------------------------------------

  /** The runs are at the same point, and run 2 has the entries `lead` besides. */
  ghost predicate Leads(l1: Limits, l2: Limits, a1: Progress, a2: Progress, lead: seq<Entry>) {
    && a2.configs == a1.configs + lead && a2.seen == a1.seen + HashesOf(lead)
    && a2.visited == a1.visited && a2.comments == a1.comments && |lead| <= l2.maxConfigs - l1.maxConfigs
  }

  /** At some position the results differ. */
  ghost predicate Differ(b1: Progress, b2: Progress) {
    exists k :: 0 <= k < |b1.configs| && k < |b2.configs| && b1.configs[k] != b2.configs[k]
  }

  lemma DifferForGood(b1: Progress, b2: Progress, c1: Progress, c2: Progress)
    requires Differ(b1, b2) && b1.configs <= c1.configs && b2.configs <= c2.configs
    ensures Differ(c1, c2)
  {
    var k :| 0 <= k < |b1.configs| && k < |b2.configs| && b1.configs[k] != b2.configs[k];
    assert c1.configs[k] != c2.configs[k];
  }

  /** The lines the larger limit keeps and the smaller one cuts away. */
  function Dropped(l1: Limits, l2: Limits, lines: seq<Line>, taken: nat, ahead: nat): seq<Line> {
    var more := l2.maxConfigs - l1.maxConfigs - ahead;
    if |lines| <= taken || more <= 0 then [] else Take(lines[taken..], more)
  }

  lemma TakeInTwoParts(lines: seq<Line>, r1: nat, r2: nat)
    requires r1 <= r2
    ensures Take(lines, r2) == Take(lines, r1) + if |lines| <= r1 then [] else Take(lines[r1..], r2 - r1)
  {
  }

  lemma {:induction false} KeptHashes(es: seq<Entry>, seen: set<Hash>)
    ensures seen + HashesOf(KeepFirst(es, seen)) == seen + HashesOf(es)
  {
    if es != [] {
      var e := es[0];
      assert HashesOf(es) == {e.hash} + HashesOf(es[1..]) by { assert es == [e] + es[1..]; }
      if e.hash in seen {
        KeptHashes(es[1..], seen);
      } else {
        var kept := KeepFirst(es[1..], seen + {e.hash});
        KeptHashes(es[1..], seen + {e.hash});
        assert HashesOf([e] + kept) == {e.hash} + HashesOf(kept);
      }
    }
  }

  /** The entries by which the lines cut away extend the lead. */
  function Extension(cut: seq<Line>, s: Source, seen: set<Hash>): seq<Entry> {
    KeepFirst(LineEntries(cut, s), seen)
  }

  lemma CutExtendsLead(l1: Limits, l2: Limits, cut: seq<Line>, s: Source, a1: Progress, a2: Progress, lead: seq<Entry>)
    requires Leads(l1, l2, a1, a2, lead) && |lead| + |cut| <= l2.maxConfigs - l1.maxConfigs
    ensures Leads(l1, l2, a1, AddLines(cut, s, a2), lead + Extension(cut, s, a2.seen))
  {
    AddLinesAppends(cut, s, a2);
    LinesOnlyAppend(cut, s, a2);
    KeptHashes(LineEntries(cut, s), a2.seen);
    var extension := Extension(cut, s, a2.seen);
    assert HashesOf(lead + extension) == HashesOf(lead) + HashesOf(extension);
  }

  // ------------------------------------------------------------------
  // The exact condition: entries added while behind are the next of the lead
  // ------------------------------------------------------------------

  /** What is left of the lead when run 1 adds `e`; None when `e` is not the next of it. */
  function EntryLead(e: Entry, a: Progress, lead: seq<Entry>): Option<seq<Entry>> {
    if e.hash in a.seen || lead == [] then Some(lead)
    else if e == lead[0] then Some(lead[1..]) else None
  }

  function LinesLead(lines: seq<Line>, s: Source, a: Progress, lead: seq<Entry>): Option<seq<Entry>> {
    if lines == [] then Some(lead)
    else
      var e := LineEntry(lines[0], s);
      var rest := EntryLead(e, a, lead);
      if rest.None? then None else LinesLead(lines[1..], s, AddEntry(e, a), rest.value)
  }

  function CutLead(l1: Limits, l2: Limits, lines: seq<Line>, s: Source, a: Progress,
                   lead: seq<Entry>): Option<seq<Entry>>
    requires !Full(l1, a)
  {
    var r := l1.maxConfigs - |a.configs|;
    var taken, rest := AddLines(Take(lines, r), s, a), LinesLead(Take(lines, r), s, a, lead);
    if rest.None? then None
    else Some(rest.value + Extension(Dropped(l1, l2, lines, r, |lead|), s, taken.seen + HashesOf(rest.value)))
  }

  function VisitLead(w: World, l1: Limits, l2: Limits, t: Token, depth: nat, a: Progress,
                     lead: seq<Entry>): Option<seq<Entry>>
    decreases l1.maxDepth - depth, 0, 0
  {
    if Full(l1, a) || depth > l1.maxDepth || t in a.visited || t !in w.store then Some(lead)
    else
      SourcesLead(w, l1, l2, t, EligibleSources(w.store[t], depth), depth,
                  Describe(l1, w.store[t], a.(visited := a.visited + {t})), lead)
  }

  function SourcesLead(w: World, l1: Limits, l2: Limits, t: Token, ss: seq<Source>, depth: nat, a: Progress,
                       lead: seq<Entry>): Option<seq<Entry>>
    requires depth <= l1.maxDepth
    decreases l1.maxDepth - depth - 1, 1, |ss|
  {
    if ss == [] || Full(l1, a) then Some(lead)
    else
      var rest := SourceLead(w, l1, l2, t, ss[0], depth, a, lead);
      if rest.None? then None
      else SourcesLead(w, l1, l2, t, ss[1..], depth, ApplySource(w, l1, t, ss[0], depth, a), rest.value)
  }

  function SourceLead(w: World, l1: Limits, l2: Limits, t: Token, s: Source, depth: nat, a: Progress,
                      lead: seq<Entry>): Option<seq<Entry>>
    requires depth <= l1.maxDepth && !Full(l1, a)
    decreases l1.maxDepth - depth - 1, 0, 1
  {
    match s.kind
    case Config(_, _, loaded) =>
      if loaded then EntryLead(ConfigEntry(s, a.comments), a, lead) else Some(lead)
    case External(_) =>
      var fetched := Fetch(w, t, s);
      if fetched.Lines? then CutLead(l1, l2, fetched.lines, s, a, lead) else Some(lead)
    case Internal(target) =>
      var fetched := Fetch(w, t, s);
      if fetched.Failed? || target.None? then Some(lead)
      else VisitLead(w, l1, l2, target.value, depth + 1, MergeInto(StoredComments(w, target.value), a), lead)
  }

  /** Run 1 ends full on a prefix of run 2, or at the same point with the lead told; or they differ. */
  ghost predicate LeadTold(l1: Limits, l2: Limits, b1: Progress, b2: Progress, lead: Option<seq<Entry>>) {
    if lead.None? then Differ(b1, b2)
    else if Full(l1, b1) then b1.configs <= b2.configs
    else Leads(l1, l2, b1, b2, lead.value)
  }

  lemma EntryTold(l1: Limits, l2: Limits, e: Entry, a1: Progress, a2: Progress, lead: seq<Entry>)
    requires Leads(l1, l2, a1, a2, lead)
    ensures var rest := EntryLead(e, a1, lead);
            var b1, b2 := AddEntry(e, a1), AddEntry(e, a2);
            if rest.None? then Differ(b1, b2) else Leads(l1, l2, b1, b2, rest.value)
  {
    var b1, b2 := AddEntry(e, a1), AddEntry(e, a2);
    if e.hash !in a1.seen && lead != [] {
      assert lead == [lead[0]] + lead[1..];
      assert HashesOf(lead) == {lead[0].hash} + HashesOf(lead[1..]);
      assert b1.configs[|a1.configs|] == e && b2.configs[|a1.configs|] == lead[0];
    }
  }

  lemma {:induction false} LinesTold(l1: Limits, l2: Limits, lines: seq<Line>, s: Source, a1: Progress, a2: Progress,
                                     lead: seq<Entry>)
    requires Leads(l1, l2, a1, a2, lead)
    ensures var rest := LinesLead(lines, s, a1, lead);
            var b1, b2 := AddLines(lines, s, a1), AddLines(lines, s, a2);
            if rest.None? then Differ(b1, b2) else Leads(l1, l2, b1, b2, rest.value) && |rest.value| <= |lead|
    ensures lead == [] ==> LinesLead(lines, s, a1, lead) == Some([])
  {
    if lines != [] {
      var e := LineEntry(lines[0], s);
      var b1, b2, rest := AddEntry(e, a1), AddEntry(e, a2), EntryLead(e, a1, lead);
      EntryTold(l1, l2, e, a1, a2, lead);
      if rest.None? {
        LinesOnlyAppend(lines[1..], s, b1);
        LinesOnlyAppend(lines[1..], s, b2);
        DifferForGood(b1, b2, AddLines(lines[1..], s, b1), AddLines(lines[1..], s, b2));
      } else {
        LinesTold(l1, l2, lines[1..], s, b1, b2, rest.value);
      }
    }
  }

  /** Run 2 takes the lines run 1 takes, and then those cut away by run 1 alone. */
  lemma CutInTwoParts(l1: Limits, l2: Limits, lines: seq<Line>, s: Source, a1: Progress, a2: Progress, ahead: nat)
    requires Raises(l1, l2) && |a2.configs| == |a1.configs| + ahead && ahead <= l2.maxConfigs - l1.maxConfigs
    requires !Full(l1, a1)
    ensures var r := l1.maxConfigs - |a1.configs|;
            var c2 := AddLines(Dropped(l1, l2, lines, r, ahead), s, AddLines(Take(lines, r), s, a2));
            ApplyLines(l2, lines, s, a2) in {c2, c2.(truncated := true)}
  {
    var r1, r2 := l1.maxConfigs - |a1.configs|, l2.maxConfigs - |a2.configs|;
    var first, cut := Take(lines, r1), Dropped(l1, l2, lines, r1, ahead);
    TakeInTwoParts(lines, r1, r2);
    assert Take(lines, r2) == first + cut;
    AddLinesInTwoParts(first, cut, s, a2);
  }

  lemma CutTold(l1: Limits, l2: Limits, lines: seq<Line>, s: Source, a1: Progress, a2: Progress, lead: seq<Entry>)
    requires Raises(l1, l2) && Leads(l1, l2, a1, a2, lead) && !Full(l1, a1)
    ensures LeadTold(l1, l2, ApplyLines(l1, lines, s, a1), ApplyLines(l2, lines, s, a2),
                     CutLead(l1, l2, lines, s, a1, lead))
  {
    var r := l1.maxConfigs - |a1.configs|;
    var first, cut := Take(lines, r), Dropped(l1, l2, lines, r, |lead|);
    var m1, m2, rest := AddLines(first, s, a1), AddLines(first, s, a2), LinesLead(first, s, a1, lead);
    CutInTwoParts(l1, l2, lines, s, a1, a2, |lead|);
    LinesTold(l1, l2, first, s, a1, a2, lead);
    LinesOnlyAppend(cut, s, m2);
    if rest.None? {
      DifferForGood(m1, m2, m1, AddLines(cut, s, m2));
    } else {
      CutExtendsLead(l1, l2, cut, s, m1, m2, rest.value);
    }
  }

  lemma EnteringKeepsLead(l1: Limits, l2: Limits, sub: Subscription, t: Token, a1: Progress, a2: Progress,
                          lead: seq<Entry>)
    requires Leads(l1, l2, a1, a2, lead)
    ensures Leads(l1, l2, Describe(l1, sub, a1.(visited := a1.visited + {t})),
                  Describe(l2, sub, a2.(visited := a2.visited + {t})), lead)
  {
  }

  lemma {:induction false} VisitTold(w: World, l1: Limits, l2: Limits, t: Token, depth: nat,
                                     a1: Progress, a2: Progress, b1: Progress, b2: Progress, lead: seq<Entry>)
    requires Raises(l1, l2) && LeadTold(l1, l2, a1, a2, Some(lead))
    requires b1 == Visit(w, l1, t, depth, a1) && b2 == Visit(w, l2, t, depth, a2)
    ensures LeadTold(l1, l2, b1, b2, VisitLead(w, l1, l2, t, depth, a1, lead))
    decreases l1.maxDepth - depth, 0, 0
  {
    if Full(l1, a1) {
      VisitKeeps(w, l2, t, depth, a2, b2);
    } else if depth <= l1.maxDepth && t !in a1.visited && t in w.store {
      var e1 := Describe(l1, w.store[t], a1.(visited := a1.visited + {t}));
      var e2 := Describe(l2, w.store[t], a2.(visited := a2.visited + {t}));
      EnteringKeepsLead(l1, l2, w.store[t], t, a1, a2, lead);
      SourcesTold(w, l1, l2, t, EligibleSources(w.store[t], depth), depth, e1, e2, b1, b2, lead);
    }
  }

  lemma {:induction false} SourcesTold(w: World, l1: Limits, l2: Limits, t: Token, ss: seq<Source>, depth: nat,
                                       a1: Progress, a2: Progress, b1: Progress, b2: Progress, lead: seq<Entry>)
    requires depth <= l1.maxDepth && Raises(l1, l2) && LeadTold(l1, l2, a1, a2, Some(lead))
    requires b1 == ApplyAll(w, l1, t, ss, depth, a1) && b2 == ApplyAll(w, l2, t, ss, depth, a2)
    ensures LeadTold(l1, l2, b1, b2, SourcesLead(w, l1, l2, t, ss, depth, a1, lead))
    decreases l1.maxDepth - depth - 1, 1, |ss|
  {
    ApplyAllKeeps(w, l2, t, ss, depth, a2, b2);
    if ss != [] && !Full(l1, a1) {
      var m1, m2 := ApplySource(w, l1, t, ss[0], depth, a1), ApplySource(w, l2, t, ss[0], depth, a2);
      var rest := SourceLead(w, l1, l2, t, ss[0], depth, a1, lead);
      SourceTold(w, l1, l2, t, ss[0], depth, a1, a2, m1, m2, lead);
      if rest.None? {
        ApplyAllKeeps(w, l1, t, ss[1..], depth, m1, b1);
        ApplyAllKeeps(w, l2, t, ss[1..], depth, m2, b2);
        DifferForGood(m1, m2, b1, b2);
      } else {
        SourcesTold(w, l1, l2, t, ss[1..], depth, m1, m2, b1, b2, rest.value);
      }
    }
  }

  lemma {:induction false} SourceTold(w: World, l1: Limits, l2: Limits, t: Token, s: Source, depth: nat,
                                      a1: Progress, a2: Progress, b1: Progress, b2: Progress, lead: seq<Entry>)
    requires depth <= l1.maxDepth && Raises(l1, l2) && Leads(l1, l2, a1, a2, lead) && !Full(l1, a1)
    requires b1 == ApplySource(w, l1, t, s, depth, a1) && b2 == ApplySource(w, l2, t, s, depth, a2)
    ensures LeadTold(l1, l2, b1, b2, SourceLead(w, l1, l2, t, s, depth, a1, lead))
    decreases l1.maxDepth - depth - 1, 0, 1
  {
    if s.kind.Config? {
      if s.kind.loaded {
        EntryTold(l1, l2, ConfigEntry(s, a1.comments), a1, a2, lead);
      }
    } else {
      match Fetch(w, t, s)
      case Failed =>
      case Lines(lines) =>
        CutTold(l1, l2, lines, s, a1, a2, lead);
      case CommentMap(c) =>
        if s.kind.target.Some? {
          VisitTold(w, l1, l2, s.kind.target.value, depth + 1, MergeInto(c, a1), MergeInto(c, a2), b1, b2, lead);
        }
    }
  }

  /**
   For any two limits the smaller result is a prefix of the larger one exactly
   when, throughout the smaller run, whatever it adds while lines cut away by it
   alone are outstanding is the next of their entries.
   */
  lemma SmallerResultIsPrefixExactlyWhen(w: World, l1: Limits, l2: Limits, root: Token)
    requires Raises(l1, l2)
    ensures Resolve(w, l1, root).configs <= Resolve(w, l2, root).configs <==>
            VisitLead(w, l1, l2, root, 0, Start(w, l1, root), []).Some?
  {
    var a1, a2 := Start(w, l1, root), Start(w, l2, root);
    assert HashesOf([]) == {};
    assert Leads(l1, l2, a1, a2, []);
    VisitTold(w, l1, l2, root, 0, a1, a2, Resolve(w, l1, root), Resolve(w, l2, root), []);
  }

  // ------------------------------------------------------------------
  // What the smaller run alone tells
  // ------------------------------------------------------------------

  /**
   A cut that leaves room and drops a new digest: the result up to it, the first
   such line's entry, and the least limit under which that line is kept.
   */
  datatype Gap = Gap(configs: seq<Entry>, dropped: Entry, need: nat)

  /** Position of the first line with a digest not seen, or the length. */
  function FirstNew(lines: seq<Line>, seen: set<Hash>): (k: nat)
    ensures k <= |lines| && (forall i :: 0 <= i < k ==> lines[i].hash in seen)
    ensures (k < |lines| ==> lines[k].hash !in seen)
  {
    if lines == [] || lines[0].hash !in seen then 0 else 1 + FirstNew(lines[1..], seen)
  }

  /** The gap that a cut leaves after `taken`, dropping the lines `rest`. */
  function DroppedGap(lim: Limits, rest: seq<Line>, s: Source, taken: Progress): Option<Gap> {
    var k := FirstNew(rest, taken.seen);
    if Full(lim, taken) || k == |rest| then None
    else Some(Gap(taken.configs, LineEntry(rest[k], s), lim.maxConfigs + k + 1))
  }

  function CutGap(lim: Limits, lines: seq<Line>, s: Source, a: Progress): Option<Gap>
    requires !Full(lim, a)
  {
    var r := lim.maxConfigs - |a.configs|;
    if |lines| <= r then None else DroppedGap(lim, lines[r..], s, AddLines(Take(lines, r), s, a))
  }

  /** The first gap of a visit. */
  function VisitGap(w: World, lim: Limits, t: Token, depth: nat, a: Progress): Option<Gap>
    decreases lim.maxDepth - depth, 0, 0
  {
    if Full(lim, a) || depth > lim.maxDepth || t in a.visited || t !in w.store then None
    else
      SourcesGap(w, lim, t, EligibleSources(w.store[t], depth), depth,
                 Describe(lim, w.store[t], a.(visited := a.visited + {t})))
  }

  function SourcesGap(w: World, lim: Limits, t: Token, ss: seq<Source>, depth: nat, a: Progress): Option<Gap>
    requires depth <= lim.maxDepth
    decreases lim.maxDepth - depth - 1, 1, |ss|
  {
    if ss == [] || Full(lim, a) then None
    else
      var gap := SourceGap(w, lim, t, ss[0], depth, a);
      if gap.Some? then gap else SourcesGap(w, lim, t, ss[1..], depth, ApplySource(w, lim, t, ss[0], depth, a))
  }

  function SourceGap(w: World, lim: Limits, t: Token, s: Source, depth: nat, a: Progress): Option<Gap>
    requires depth <= lim.maxDepth && !Full(lim, a)
    decreases lim.maxDepth - depth - 1, 0, 1
  {
    match s.kind
    case Config(_, _, _) => None
    case External(_) =>
      var fetched := Fetch(w, t, s);
      if fetched.Lines? then CutGap(lim, fetched.lines, s, a) else None
    case Internal(target) =>
      var fetched := Fetch(w, t, s);
      if fetched.Failed? || target.None? then None
      else VisitGap(w, lim, target.value, depth + 1, MergeInto(StoredComments(w, target.value), a))
  }

  /** Both results go on from the gap, the larger one with the dropped entry if its limit allows. */
  ghost predicate GapTold(l1: Limits, l2: Limits, b1: Progress, b2: Progress, gap: Option<Gap>) {
    if gap.None? then LeadTold(l1, l2, b1, b2, Some([]))
    else
      && gap.value.configs <= b1.configs && gap.value.configs <= b2.configs
      && (gap.value.need <= l2.maxConfigs ==> gap.value.configs + [gap.value.dropped] <= b2.configs)
  }

  lemma GapToldForGood(l1: Limits, l2: Limits, b1: Progress, b2: Progress, c1: Progress, c2: Progress, gap: Option<Gap>)
    requires gap.Some? && GapTold(l1, l2, b1, b2, gap) && b1.configs <= c1.configs && b2.configs <= c2.configs
    ensures GapTold(l1, l2, c1, c2, gap)
  {
  }

  /** What a part of the lines cut away adds: nothing up to the first new digest, and then that. */
  lemma {:induction false} CutLinesAdd(rest: seq<Line>, cut: seq<Line>, s: Source, a: Progress)
    requires cut <= rest
    ensures var k, b := FirstNew(rest, a.seen), AddLines(cut, s, a);
            if |cut| <= k then b == a else a.configs + [LineEntry(rest[k], s)] <= b.configs
  {
    if cut != [] {
      if rest[0].hash in a.seen {
        CutLinesAdd(rest[1..], cut[1..], s, a);
      } else {
        LinesOnlyAppend(cut[1..], s, AddEntry(LineEntry(rest[0], s), a));
      }
    }
  }

  lemma UncutShowsNoGap(l1: Limits, l2: Limits, lines: seq<Line>, s: Source, a1: Progress, a2: Progress)
    requires Raises(l1, l2) && Leads(l1, l2, a1, a2, []) && !Full(l1, a1) && |lines| <= l1.maxConfigs - |a1.configs|
    ensures LeadTold(l1, l2, ApplyLines(l1, lines, s, a1), ApplyLines(l2, lines, s, a2), Some([]))
  {
    LinesTold(l1, l2, lines, s, a1, a2, []);
  }

  /** The lines both runs take leave them at the same point. */
  lemma SameLinesTaken(l1: Limits, l2: Limits, lines: seq<Line>, s: Source, a1: Progress, a2: Progress)
    requires Leads(l1, l2, a1, a2, [])
    ensures var m1, m2 := AddLines(lines, s, a1), AddLines(lines, s, a2);
            Leads(l1, l2, m1, m2, []) && m2.configs == m1.configs && m2.seen == m1.seen
  {
    LinesTold(l1, l2, lines, s, a1, a2, []);
    assert HashesOf([]) == {};
  }

  /** After the lines both take, run 2 adds some of those cut away. */
  lemma DroppedLinesShowGap(l1: Limits, l2: Limits, rest: seq<Line>, cut: seq<Line>, s: Source,
                            m1: Progress, m2: Progress, gap: Option<Gap>, b1: Progress, b2: Progress)
    requires Leads(l1, l2, m1, m2, []) && m2.configs == m1.configs && m2.seen == m1.seen
    requires cut <= rest && |cut| <= l2.maxConfigs - l1.maxConfigs
    requires cut == rest || |cut| == l2.maxConfigs - l1.maxConfigs
    requires gap == DroppedGap(l1, rest, s, m1)
    requires b1 == m1.(truncated := b1.truncated) && b2 == AddLines(cut, s, m2).(truncated := b2.truncated)
    ensures GapTold(l1, l2, b1, b2, gap)
  {
    CutLinesAdd(rest, cut, s, m2);
    LinesOnlyAppend(cut, s, m2);
  }

  lemma DroppedShape(l1: Limits, l2: Limits, lines: seq<Line>, r: nat)
    requires Raises(l1, l2) && r < |lines|
    ensures var cut := Dropped(l1, l2, lines, r, 0);
            && cut <= lines[r..] && |cut| <= l2.maxConfigs - l1.maxConfigs
            && (cut == lines[r..] || |cut| == l2.maxConfigs - l1.maxConfigs)
  {
  }

  lemma CutShowsGap(l1: Limits, l2: Limits, lines: seq<Line>, s: Source, a1: Progress, a2: Progress)
    requires Raises(l1, l2) && Leads(l1, l2, a1, a2, []) && !Full(l1, a1)
    ensures GapTold(l1, l2, ApplyLines(l1, lines, s, a1), ApplyLines(l2, lines, s, a2), CutGap(l1, lines, s, a1))
  {
    if |lines| <= l1.maxConfigs - |a1.configs| {
      UncutShowsNoGap(l1, l2, lines, s, a1, a2);
    } else {
      LongCutShowsGap(l1, l2, lines, s, a1, a2, ApplyLines(l1, lines, s, a1), ApplyLines(l2, lines, s, a2));
    }
  }

  lemma LongCutShowsGap(l1: Limits, l2: Limits, lines: seq<Line>, s: Source, a1: Progress, a2: Progress,
                        b1: Progress, b2: Progress)
    requires Raises(l1, l2) && Leads(l1, l2, a1, a2, []) && !Full(l1, a1) && |lines| > l1.maxConfigs - |a1.configs|
    requires b1 == ApplyLines(l1, lines, s, a1) && b2 == ApplyLines(l2, lines, s, a2)
    ensures GapTold(l1, l2, b1, b2, CutGap(l1, lines, s, a1))
  {
    var r := l1.maxConfigs - |a1.configs|;
    var first, cut := Take(lines, r), Dropped(l1, l2, lines, r, 0);
    CutInTwoParts(l1, l2, lines, s, a1, a2, 0);
    SameLinesTaken(l1, l2, first, s, a1, a2);
    DroppedShape(l1, l2, lines, r);
    DroppedLinesShowGap(l1, l2, lines[r..], cut, s, AddLines(first, s, a1), AddLines(first, s, a2),
                        CutGap(l1, lines, s, a1), b1, b2);
  }

  lemma {:induction false} VisitShowsGap(w: World, l1: Limits, l2: Limits, t: Token, depth: nat,
                                         a1: Progress, a2: Progress, b1: Progress, b2: Progress)
    requires Raises(l1, l2) && LeadTold(l1, l2, a1, a2, Some([]))
    requires b1 == Visit(w, l1, t, depth, a1) && b2 == Visit(w, l2, t, depth, a2)
    ensures GapTold(l1, l2, b1, b2, VisitGap(w, l1, t, depth, a1))
    decreases l1.maxDepth - depth, 0, 0
  {
    if Full(l1, a1) {
      VisitKeeps(w, l2, t, depth, a2, b2);
    } else if depth <= l1.maxDepth && t !in a1.visited && t in w.store {
      var e1 := Describe(l1, w.store[t], a1.(visited := a1.visited + {t}));
      var e2 := Describe(l2, w.store[t], a2.(visited := a2.visited + {t}));
      EnteringKeepsLead(l1, l2, w.store[t], t, a1, a2, []);
      SourcesShowGap(w, l1, l2, t, EligibleSources(w.store[t], depth), depth, e1, e2, b1, b2);
    }
  }

  lemma {:induction false} SourcesShowGap(w: World, l1: Limits, l2: Limits, t: Token, ss: seq<Source>, depth: nat,
                                          a1: Progress, a2: Progress, b1: Progress, b2: Progress)
    requires depth <= l1.maxDepth && Raises(l1, l2) && LeadTold(l1, l2, a1, a2, Some([]))
    requires b1 == ApplyAll(w, l1, t, ss, depth, a1) && b2 == ApplyAll(w, l2, t, ss, depth, a2)
    ensures GapTold(l1, l2, b1, b2, SourcesGap(w, l1, t, ss, depth, a1))
    decreases l1.maxDepth - depth - 1, 1, |ss|
  {
    ApplyAllKeeps(w, l2, t, ss, depth, a2, b2);
    if ss != [] && !Full(l1, a1) {
      var m1, m2 := ApplySource(w, l1, t, ss[0], depth, a1), ApplySource(w, l2, t, ss[0], depth, a2);
      var gap := SourceGap(w, l1, t, ss[0], depth, a1);
      SourceShowsGap(w, l1, l2, t, ss[0], depth, a1, a2, m1, m2);
      if gap.Some? {
        ApplyAllKeeps(w, l1, t, ss[1..], depth, m1, b1);
        ApplyAllKeeps(w, l2, t, ss[1..], depth, m2, b2);
        GapToldForGood(l1, l2, m1, m2, b1, b2, gap);
      } else {
        SourcesShowGap(w, l1, l2, t, ss[1..], depth, m1, m2, b1, b2);
      }
    }
  }

  lemma {:induction false} SourceShowsGap(w: World, l1: Limits, l2: Limits, t: Token, s: Source, depth: nat,
                                          a1: Progress, a2: Progress, b1: Progress, b2: Progress)
    requires depth <= l1.maxDepth && Raises(l1, l2) && Leads(l1, l2, a1, a2, []) && !Full(l1, a1)
    requires b1 == ApplySource(w, l1, t, s, depth, a1) && b2 == ApplySource(w, l2, t, s, depth, a2)
    ensures GapTold(l1, l2, b1, b2, SourceGap(w, l1, t, s, depth, a1))
    decreases l1.maxDepth - depth - 1, 0, 1
  {
    if s.kind.Config? {
      if s.kind.loaded {
        EntryTold(l1, l2, ConfigEntry(s, a1.comments), a1, a2, []);
      }
    } else {
      match Fetch(w, t, s)
      case Failed =>
      case Lines(lines) =>
        CutShowsGap(l1, l2, lines, s, a1, a2);
      case CommentMap(c) =>
        if s.kind.target.Some? {
          VisitShowsGap(w, l1, l2, s.kind.target.value, depth + 1, MergeInto(c, a1), MergeInto(c, a2), b1, b2);
        }
    }
  }

  /**
   A run without a gap, or one that adds nothing after its first gap, is a
   prefix under every larger limit. One that goes on with anything but the
   dropped entry is a prefix under none that keeps the dropped line.
   */
  lemma GapDecidesPrefix(w: World, l1: Limits, l2: Limits, root: Token)
    requires Raises(l1, l2)
    ensures var gap := VisitGap(w, l1, root, 0, Start(w, l1, root));
            var small, large := Resolve(w, l1, root).configs, Resolve(w, l2, root).configs;
            && (gap.None? || small == gap.value.configs ==> small <= large)
            && (gap.Some? ==> gap.value.configs <= small)
            && (gap.Some? && l2.maxConfigs >= gap.value.need ==>
                  |small| > |gap.value.configs| && small[|gap.value.configs|] != gap.value.dropped ==>
                    !(small <= large))
  {
    var a1, a2 := Start(w, l1, root), Start(w, l2, root);
    var gap := VisitGap(w, l1, root, 0, a1);
    var small, large := Resolve(w, l1, root).configs, Resolve(w, l2, root).configs;
    assert HashesOf([]) == {};
    assert Leads(l1, l2, a1, a2, []);
    VisitShowsGap(w, l1, l2, root, 0, a1, a2, Resolve(w, l1, root), Resolve(w, l2, root));
    if gap.Some? && l2.maxConfigs >= gap.value.need {
      var n := |gap.value.configs|;
      assert large[n] == (gap.value.configs + [gap.value.dropped])[n] == gap.value.dropped;
    }
  }
}
