/** From the per-property save experiments to the characterization (gpshwtest/characterize.py, characterize_save). */
module SaveSurvey {
  import opened Options
  import opened Sequences
  import opened SaveGroups
  import opened SaveCharacter

  /** The experiment on one property: which others were saved with it, stayed independent, or could not be told. */
  datatype Result =
    | Refused(prop: string, error: string, anomalies: seq<string>)
    | Probed(
        prop: string, saved: seq<string>, independent: seq<string>, indeterminate: seq<string>, anomalies: seq<string>)

  datatype SaveEntry = SaveEntry(
    singleGroup: bool, groups: seq<set<string>>, anomalous: set<string>, unsaved: set<string>,
    refused: seq<(string, string)>, anomalies: seq<string>)
  {
    predicate SaysNothing() {
      !singleGroup && groups == [] && anomalous == {} && unsaved == {} && refused == [] && anomalies == []
    }
  }

  function Refusals(results: seq<Result>): seq<(string, string)> {
    if results == [] then []
    else
      var r := results[|results| - 1];
      Refusals(results[..|results| - 1]) + if r.Refused? then [(r.prop, r.error)] else []
  }

  function Anomalies(results: seq<Result>): seq<string> {
    if results == [] then []
    else Anomalies(results[..|results| - 1]) + results[|results| - 1].anomalies
  }

  /** One more result adds its refusal, if it is one, and its anomalies at the end. */
  lemma OneMoreListed(results: seq<Result>, r: Result)
    ensures Refusals(results + [r]) == Refusals(results) + if r.Refused? then [(r.prop, r.error)] else []
    ensures Anomalies(results + [r]) == Anomalies(results) + r.anomalies
  {
    assert (results + [r])[..|results|] == results;
  }

  /** The refusals and anomalies of a survey in two parts are those of the first part and then those of the second. */
  lemma {:induction false} ListedInOrder(a: seq<Result>, b: seq<Result>)
    ensures Refusals(a + b) == Refusals(a) + Refusals(b) && Anomalies(a + b) == Anomalies(a) + Anomalies(b)
  {
    if b == [] {
      assert a + b == a;
    } else {
      hide *;
      var init, last := b[..|b| - 1], b[|b| - 1];
      ListedInOrder(a, init);
      assert b == init + [last] && a + b == (a + init) + [last];
      OneMoreListed(init, last);
      OneMoreListed(a + init, last);
      Associates(Refusals(a), Refusals(init), if last.Refused? then [(last.prop, last.error)] else []);
      Associates(Anomalies(a), Anomalies(init), last.anomalies);
    }
  }

  lemma {:induction false} NothingListed(results: seq<Result>, i: nat)
    requires i < |results|
    ensures Refusals(results) == [] ==> results[i].Probed?
    ensures Anomalies(results) == [] ==> results[i].anomalies == []
  {
    if i < |results| - 1 {
      NothingListed(results[..|results| - 1], i);
    }
  }

  datatype Survey = Survey(
    together: Together, subjects: set<string>, determined: set<string>, indeterminate: set<string>)

  predicate Notes(prop: string, qs: seq<string>, k: (string, string)) {
    exists q :: q in qs && Key(prop, q) == k
  }

  predicate SawSaved(r: Result, k: (string, string)) {
    r.Probed? && Notes(r.prop, r.saved, k)
  }

  predicate SawIndependent(r: Result, k: (string, string)) {
    r.Probed? && Notes(r.prop, r.independent, k)
  }

  /** A pair is together if it was observed at all and never apart, whichever of the two was probed. */
  ghost predicate Tells(together: Together, results: seq<Result>) {
    forall k ::
      && (k in together <==> Saw(results, k))
      && (k in together ==> (together[k] <==> !SawApart(results, k)))
  }

  predicate Saw(results: seq<Result>, k: (string, string)) {
    exists r :: r in results && (SawSaved(r, k) || SawIndependent(r, k))
  }

  predicate SawApart(results: seq<Result>, k: (string, string)) {
    exists r :: r in results && SawIndependent(r, k)
  }

  lemma SawOneMore(results: seq<Result>, r: Result, k: (string, string))
    ensures Saw(results + [r], k) <==> Saw(results, k) || SawSaved(r, k) || SawIndependent(r, k)
    ensures SawApart(results + [r], k) <==> SawApart(results, k) || SawIndependent(r, k)
  {
    hide SawSaved, SawIndependent;
    assert r in results + [r];
    assert forall x :: x in results ==> x in results + [r];
  }

  predicate Mentions(r: Result, q: string) {
    r.Probed? && (q in r.saved || q in r.independent)
  }

  ghost predicate Surveyed(s: Survey, results: seq<Result>) {
    && Ordered(s.together) && Tells(s.together, results)
    && (forall p :: p in s.subjects <==> Subject(results, p))
    && (forall q :: q in s.determined <==> Determined(results, q))
    && (forall q :: q in s.indeterminate <==> Indeterminate(results, q))
  }

  predicate Subject(results: seq<Result>, p: string) {
    exists r :: r in results && r.Probed? && r.prop == p
  }

  predicate Determined(results: seq<Result>, q: string) {
    exists r :: r in results && Mentions(r, q)
  }

  predicate Indeterminate(results: seq<Result>, q: string) {
    exists r :: r in results && r.Probed? && q in r.indeterminate
  }

  lemma OneMoreResult(results: seq<Result>, r: Result, p: string)
    ensures Subject(results + [r], p) <==> Subject(results, p) || (r.Probed? && r.prop == p)
    ensures Determined(results + [r], p) <==> Determined(results, p) || Mentions(r, p)
    ensures Indeterminate(results + [r], p) <==> Indeterminate(results, p) || (r.Probed? && p in r.indeterminate)
  {
    hide Mentions;
    assert r in results + [r];
    assert forall x :: x in results ==> x in results + [r];
  }

  /** Combines the observations `val` of the pairs of `prop` with each of `qs`. */
  method NotePairs(together: Together, prop: string, qs: seq<string>, val: bool) returns (r: Together)
    requires Ordered(together)
    ensures Ordered(r) && Noted(together, prop, qs, val, r)
  {
    r := together;
    for i := 0 to |qs|
      invariant Ordered(r) && Noted(together, prop, qs[..i], val, r)
    {
      NoteOne(together, prop, qs, i, val, r);
      var k := Key(prop, qs[i]);
      KeyIsSymmetric(k.0, k.1);
      r := r[k := (if k in r then r[k] else val) && val];
    }
    assert qs[..|qs|] == qs;
  }

  ghost predicate Noted(before: Together, prop: string, qs: seq<string>, val: bool, after: Together) {
    forall k ::
      && (k in after <==> k in before || Notes(prop, qs, k))
      && (k in after ==> (after[k] <==> (k in before ==> before[k]) && (Notes(prop, qs, k) ==> val)))
  }

  lemma NoteOne(before: Together, prop: string, qs: seq<string>, i: nat, val: bool, r: Together)
    requires i < |qs| && Noted(before, prop, qs[..i], val, r)
    ensures var k := Key(prop, qs[i]);
      Noted(before, prop, qs[..i + 1], val, r[k := (if k in r then r[k] else val) && val])
  {
    var k := Key(prop, qs[i]);
    assert qs[..i + 1] == qs[..i] + [qs[i]];
    forall other ensures Notes(prop, qs[..i + 1], other) <==> Notes(prop, qs[..i], other) || other == k {
      if Notes(prop, qs[..i], other) {
        var q :| q in qs[..i] && Key(prop, q) == other;
        assert q in qs[..i + 1];
      }
      assert qs[i] in qs[..i + 1];
    }
    hide Notes, Key;
  }

  method SurveyResults(results: seq<Result>) returns (s: Survey)
    ensures Surveyed(s, results)
  {
    hide *;
    s := Survey(map[], {}, {}, {});
    NothingSurveyed();
    for i := 0 to |results|
      invariant Surveyed(s, results[..i])
    {
      var r := results[i];
      assert results[..i + 1] == results[..i] + [r];
      if r.Probed? {
        OrderedSurvey(s, results[..i]);
        var saved := NotePairs(s.together, r.prop, r.saved, true);
        var all := NotePairs(saved, r.prop, r.independent, false);
        ProbedSurveyed(s, results[..i], r, saved, all);
        s := Survey(all, s.subjects + {r.prop}, s.determined + Elements(r.saved) + Elements(r.independent),
          s.indeterminate + Elements(r.indeterminate));
      } else {
        RefusedSurveyed(s, results[..i], r);
      }
    }
    assert results[..|results|] == results;
  }

  lemma NothingSurveyed()
    ensures Surveyed(Survey(map[], {}, {}, {}), [])
  {
  }

  lemma OrderedSurvey(s: Survey, results: seq<Result>)
    requires Surveyed(s, results)
    ensures Ordered(s.together)
  {
  }

  lemma RefusedSurveyed(s: Survey, results: seq<Result>, r: Result)
    requires Surveyed(s, results) && r.Refused?
    ensures Surveyed(s, results + [r])
  {
    forall k
      ensures Saw(results + [r], k) <==> Saw(results, k)
      ensures SawApart(results + [r], k) <==> SawApart(results, k)
    {
      SawOneMore(results, r, k);
    }
    forall p ensures (Subject(results + [r], p) <==> Subject(results, p))
      ensures (Determined(results + [r], p) <==> Determined(results, p))
      ensures (Indeterminate(results + [r], p) <==> Indeterminate(results, p))
    {
      OneMoreResult(results, r, p);
    }
    hide Ordered, Notes, Saw, SawApart, Subject, Determined, Indeterminate;
  }

  lemma ProbedSurveyed(s: Survey, results: seq<Result>, r: Result, saved: Together, all: Together)
    requires Surveyed(s, results) && r.Probed?
    requires Noted(s.together, r.prop, r.saved, true, saved) && Noted(saved, r.prop, r.independent, false, all)
    requires Ordered(all)
    ensures Surveyed(Survey(all, s.subjects + {r.prop}, s.determined + Elements(r.saved) + Elements(r.independent),
      s.indeterminate + Elements(r.indeterminate)), results + [r])
  {
    ProbedTells(s.together, results, r, saved, all);
    forall p ensures Subject(results + [r], p) <==> Subject(results, p) || r.prop == p
      ensures Determined(results + [r], p) <==> Determined(results, p) || p in r.saved || p in r.independent
      ensures Indeterminate(results + [r], p) <==> Indeterminate(results, p) || p in r.indeterminate
    {
      OneMoreResult(results, r, p);
    }
    hide Ordered, Notes, Tells, Noted, Subject, Determined, Indeterminate;
  }

  lemma ProbedTells(before: Together, results: seq<Result>, r: Result, saved: Together, all: Together)
    requires Tells(before, results) && r.Probed?
    requires Noted(before, r.prop, r.saved, true, saved) && Noted(saved, r.prop, r.independent, false, all)
    ensures Tells(all, results + [r])
  {
    forall k
      ensures k in all <==> Saw(results + [r], k)
      ensures k in all ==> (all[k] <==> !SawApart(results + [r], k))
    {
      SawOneMore(results, r, k);
      hide Saw, SawApart, Notes;
    }
  }

  /** A maximal set of properties saved together, directly or through others. */
  ghost predicate IsGroup(g: set<string>, props: set<string>, together: Together) {
    && g != {} && g <= props
    && forall a, b :: a in g && b in props ==> (b in g <==> Connected(Restrict(together, props), a, b))
  }

  /** What the characterization must say of the surveyed properties. */
  ghost predicate Characterizes(entry: SaveEntry, s: Survey) {
    var classified := s.subjects - entry.unsaved;
    var remaining := classified - entry.anomalous;
    && entry.unsaved == s.indeterminate - s.determined
    && LeastAnomalous(entry.anomalous, classified, s.together)
    && (entry.singleGroup <==> entry.anomalous == {} && entry.unsaved == {} && |remaining| > 1
                               && IsGroup(remaining, remaining, s.together))
    && (if entry.singleGroup then entry.groups == [] else ListsGroups(entry.groups, remaining, s.together))
  }

  /** All groups of more than one property, each once. */
  ghost predicate ListsGroups(groups: seq<set<string>>, props: set<string>, together: Together) {
    Distinct(groups) && forall g :: g in groups <==> |g| > 1 && IsGroup(g, props, together)
  }

  /** The whole entry for the results. */
  ghost predicate EntryFor(entry: SaveEntry, results: seq<Result>) {
    && (exists s :: Surveyed(s, results) && Characterizes(entry, s))
    && entry.refused == Refusals(results) && entry.anomalies == Anomalies(results)
  }

  /** The characterization of the results, None if there is nothing to say. */
  method CharacterizeSave(results: seq<Result>) returns (r: Option<SaveEntry>)
    ensures exists entry :: EntryFor(entry, results) && r == if entry.SaysNothing() then None else Some(entry)
    // No entry means that nothing was refused and nothing went wrong.
    ensures r == None ==> forall i :: 0 <= i < |results| ==> results[i].Probed? && results[i].anomalies == []
  {
    hide *;
    if results == [] {
      var entry := NothingToSay();
      return None;
    }
    var survey := SurveyResults(results);
    OrderedSurvey(survey, results);
    var refused, anomalies := ListTroubles(results);
    var entry := CharacterizeSurvey(survey, refused, anomalies);
    IsEntryFor(entry, survey, results);
    SaidOrNot(entry, results);
    if entry.singleGroup || entry.groups != [] || entry.anomalous != {} || entry.unsaved != {} || refused != []
      || anomalies != [] {
      return Some(entry);
    }
    return None;
  }

  lemma SaidOrNot(entry: SaveEntry, results: seq<Result>)
    requires entry.refused == Refusals(results) && entry.anomalies == Anomalies(results)
    ensures entry.SaysNothing() <==>
      !(entry.singleGroup || entry.groups != [] || entry.anomalous != {} || entry.unsaved != {} || entry.refused != []
        || entry.anomalies != [])
    ensures entry.SaysNothing() ==> forall i :: 0 <= i < |results| ==> results[i].Probed? && results[i].anomalies == []
  {
    if entry.SaysNothing() {
      forall i | 0 <= i < |results| ensures results[i].Probed? && results[i].anomalies == [] {
        NothingListed(results, i);
      }
    }
  }

  method ListTroubles(results: seq<Result>) returns (refused: seq<(string, string)>, anomalies: seq<string>)
    ensures refused == Refusals(results) && anomalies == Anomalies(results)
  {
    refused, anomalies := [], [];
    for i := 0 to |results|
      invariant refused == Refusals(results[..i]) && anomalies == Anomalies(results[..i])
    {
      assert results[..i + 1][..i] == results[..i];
      if results[i].Refused? {
        refused := refused + [(results[i].prop, results[i].error)];
      }
      anomalies := anomalies + results[i].anomalies;
    }
    assert results[..|results|] == results;
  }

  method CharacterizeSurvey(survey: Survey, refused: seq<(string, string)>, anomalies: seq<string>)
    returns (entry: SaveEntry)
    requires Ordered(survey.together)
    ensures Characterizes(entry, survey) && entry.refused == refused && entry.anomalies == anomalies
  {
    hide *;
    var unsaved := survey.indeterminate - survey.determined;
    var classified := survey.subjects - unsaved;
    var names := Listing(classified);
    var anomalous := FindAnomalous(names, survey.together);
    var remaining := classified - anomalous;
    var grouped := GroupsOf(remaining, survey.together);
    var single := anomalous == {} && unsaved == {} && |grouped| == 1 && grouped[0] == remaining;
    entry := SaveEntry(single, if single then [] else grouped, anomalous, unsaved, refused, anomalies);
    SingleGroup(grouped, remaining, survey.together);
    EntryCharacterizes(entry, survey, grouped);
  }

  method GroupsOf(props: set<string>, together: Together) returns (grouped: seq<set<string>>)
    ensures ListsGroups(grouped, props, together)
  {
    hide *;
    var groups := MergeGroups(props, Restrict(together, props));
    GroupsListed(groups, props, together, []);
    grouped := LargeGroups(groups);
    GroupsListed(groups, props, together, grouped);
  }

  lemma IsEntryFor(entry: SaveEntry, s: Survey, results: seq<Result>)
    requires Surveyed(s, results) && Characterizes(entry, s)
    requires entry.refused == Refusals(results) && entry.anomalies == Anomalies(results)
    ensures EntryFor(entry, results)
  {
  }

  lemma NothingToSay() returns (entry: SaveEntry)
    ensures EntryFor(entry, []) && entry.SaysNothing()
  {
    entry := SaveEntry(false, [], {}, {}, [], []);
    NothingSurveyed();
    NothingIsConsistent(map[]);
    hide Consistent, Surveyed;
    var none: set<string> := {};
    assert none - none == none;
    assert LeastAnomalous(none, none, map[]);
    assert Characterizes(entry, Survey(map[], {}, {}, {}));
  }

  method Listing(props: set<string>) returns (names: seq<string>)
    ensures Distinct(names) && Elements(names) == props
  {
    names := [];
    var todo := props;
    while todo != {}
      invariant todo <= props && Distinct(names) && Elements(names) == props - todo
    {
      var p :| p in todo;
      assert p !in Elements(names);
      assert Elements(names + [p]) == Elements(names) + {p};
      names := names + [p];
      todo := todo - {p};
    }
  }

  method LargeGroups(groups: seq<set<string>>) returns (large: seq<set<string>>)
    requires Distinct(groups)
    ensures Distinct(large) && forall g :: g in large <==> g in groups && |g| > 1
  {
    large := [];
    for i := 0 to |groups|
      invariant Distinct(large) && forall g :: g in large <==> g in groups[..i] && |g| > 1
    {
      if |groups[i]| > 1 {
        assert groups[i] !in groups[..i];
        large := large + [groups[i]];
      }
      assert groups[..i + 1] == groups[..i] + [groups[i]];
    }
    assert groups[..|groups|] == groups;
  }

  lemma ComponentIsGroup(groups: seq<set<string>>, props: set<string>, together: Together, g: set<string>)
    requires Components(groups, props, Restrict(together, props)) && g in groups
    ensures IsGroup(g, props, together)
  {
    var rel := Restrict(together, props);
    hide Connected, Distinct;
    forall a, b | a in g && b in props ensures b in g <==> Connected(rel, a, b) {
      assert a in props;
      if b in g {
        assert SameGroup(groups, a, b);
      }
      if SameGroup(groups, a, b) {
        var h :| h in groups && a in h && b in h;
        assert h == g;
      }
    }
  }

  lemma GroupIsComponent(groups: seq<set<string>>, props: set<string>, together: Together, g: set<string>)
    requires Components(groups, props, Restrict(together, props)) && IsGroup(g, props, together)
    ensures g in groups
  {
    hide *;
    var a := MemberOf(g, props, together);
    var h := GroupOf(groups, props, Restrict(together, props), a);
    ComponentIsGroup(groups, props, together, h);
    GroupsOfOneAreSame(g, h, props, together, a);
  }

  lemma MemberOf(g: set<string>, props: set<string>, together: Together) returns (a: string)
    requires IsGroup(g, props, together)
    ensures a in g && a in props
  {
    hide Connected;
    a :| a in g;
  }

  lemma GroupsOfOneAreSame(g: set<string>, h: set<string>, props: set<string>, together: Together, a: string)
    requires IsGroup(g, props, together) && IsGroup(h, props, together) && a in g && a in h
    ensures g == h
  {
    hide Connected, Restrict;
    assert forall b :: b in props ==> (b in g <==> b in h);
  }

  lemma GroupOf(groups: seq<set<string>>, props: set<string>, rel: Together, a: string) returns (h: set<string>)
    requires Components(groups, props, rel) && a in props
    ensures h in groups && a in h
  {
    assert SameGroup(groups, a, a);
    h :| h in groups && a in h && a in h;
  }

  lemma GroupsListed(groups: seq<set<string>>, props: set<string>, together: Together, grouped: seq<set<string>>)
    requires Components(groups, props, Restrict(together, props))
    ensures Distinct(groups)
    ensures Distinct(grouped) && (forall g :: g in grouped <==> g in groups && |g| > 1) ==>
      ListsGroups(grouped, props, together)
  {
    forall g ensures g in groups <==> IsGroup(g, props, together) {
      if g in groups {
        ComponentIsGroup(groups, props, together, g);
      }
      if IsGroup(g, props, together) {
        GroupIsComponent(groups, props, together, g);
      }
    }
    hide IsGroup;
  }

  lemma SingleGroup(grouped: seq<set<string>>, props: set<string>, together: Together)
    requires ListsGroups(grouped, props, together)
    ensures |grouped| == 1 && grouped[0] == props <==> |props| > 1 && IsGroup(props, props, together)
  {
    if |grouped| == 1 && grouped[0] == props {
      assert props in grouped;
    }
    if |props| > 1 && IsGroup(props, props, together) {
      forall i | 0 <= i < |grouped| ensures grouped[i] == props {
        assert grouped[i] in grouped;
        OnlyGroup(grouped[i], props, together);
      }
      assert props in grouped;
      AllAlike(grouped, props);
    }
  }

  lemma AllAlike(groups: seq<set<string>>, g: set<string>)
    requires Distinct(groups) && forall i :: 0 <= i < |groups| ==> groups[i] == g
    ensures |groups| <= 1
  {
    assert groups != [] ==> groups[|groups| - 1] == groups[0];
  }

  lemma OnlyGroup(g: set<string>, props: set<string>, together: Together)
    requires IsGroup(g, props, together) && IsGroup(props, props, together)
    ensures g == props
  {
    hide Connected, Restrict;
    var a :| a in g;
    assert forall b :: b in props ==> b in g;
  }

  lemma EntryCharacterizes(entry: SaveEntry, s: Survey, grouped: seq<set<string>>)
    requires entry.unsaved == s.indeterminate - s.determined
    requires LeastAnomalous(entry.anomalous, s.subjects - entry.unsaved, s.together)
    requires var remaining := s.subjects - entry.unsaved - entry.anomalous;
      && ListsGroups(grouped, remaining, s.together)
      && (entry.singleGroup <==>
            entry.anomalous == {} && entry.unsaved == {} && |grouped| == 1 && grouped[0] == remaining)
      && (|grouped| == 1 && grouped[0] == remaining <==> |remaining| > 1 && IsGroup(remaining, remaining, s.together))
    requires entry.groups == if entry.singleGroup then [] else grouped
    ensures Characterizes(entry, s)
  {
    hide IsGroup, ListsGroups, LeastAnomalous;
  }
}
