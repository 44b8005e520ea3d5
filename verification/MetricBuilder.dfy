/** The event list of src/utils/metric_builder.hh: kept free of duplicates by an index of printed keys. */
module MetricBuilder {
  import opened Decimal
  import opened Deduplication

  datatype Event = Event(name: string, code: nat)

  /** The printed key of an event. */
  function Key(e: Event): string {
    e.name + "_" + Digits(e.code)
  }

  // ---- Keys are unambiguous --------------------------------------------

  lemma DigitsNoUnderscore(n: nat, i: nat)
    requires i < |Digits(n)|
    ensures Digits(n)[i] != '_'
  {
    assert IsDigit(Digits(n)[i]);
  }

  lemma KeyAt(e: Event, i: nat)
    requires i < |Key(e)|
    ensures |Key(e)| == |e.name| + 1 + |Digits(e.code)|
    ensures i == |e.name| ==> Key(e)[i] == '_'
    ensures i > |e.name| ==> Key(e)[i] == Digits(e.code)[i - |e.name| - 1] && Key(e)[i] != '_'
  {
    if i > |e.name| {
      DigitsNoUnderscore(e.code, i - |e.name| - 1);
    }
  }

  /** The last underscore of a key ends the name, so names that end like a code cannot be confused with it. */
  lemma KeyInjective(a: Event, b: Event)
    requires Key(a) == Key(b)
    ensures a == b
  {
    KeyAt(a, |a.name|);
    KeyAt(b, |b.name|);
    if |a.name| < |b.name| {
      KeyAt(a, |b.name|);
    } else if |b.name| < |a.name| {
      KeyAt(b, |a.name|);
    }
    assert a.name == Key(a)[..|a.name|] && b.name == Key(b)[..|b.name|];
    assert Digits(a.code) == Key(a)[|a.name| + 1..] && Digits(b.code) == Key(b)[|b.name| + 1..];
    DigitsRead(a.code);
    DigitsRead(b.code);
  }

  function Keys(events: seq<Event>): set<string> {
    set e | e in events :: Key(e)
  }

  lemma KeyKnown(events: seq<Event>, e: Event)
    ensures Key(e) in Keys(events) <==> e in events
  {
    if Key(e) in Keys(events) {
      var other :| other in events && Key(other) == Key(e);
      KeyInjective(e, other);
    }
  }

  // ---- The index agrees with the list ----------------------------------

  lemma KeysSnoc(s: seq<Event>, e: Event)
    ensures Keys(s + [e]) == Keys(s) + {Key(e)}
  {
    var t := s + [e];
    forall k ensures k in Keys(t) <==> k in Keys(s) + {Key(e)} {
      if k in Keys(s) {
        var x :| x in s && Key(x) == k;
        assert x in t;
      }
      if k == Key(e) {
        assert e in t;
      }
    }
  }

  /** What inserting a key does to the list and to its index. */
  lemma OfferStep(offered: seq<Event>, e: Event)
    ensures var f := FirstOccurrences(offered);
            if Key(e) in Keys(f) then FirstOccurrences(offered + [e]) == f
            else FirstOccurrences(offered + [e]) == f + [e] && Keys(f + [e]) == Keys(f) + {Key(e)}
  {
    var f := FirstOccurrences(offered);
    FirstOccurrencesSnoc(offered, e);
    KeyKnown(f, e);
    KeysSnoc(f, e);
    assert f + [] == f;
  }

  // ---- The functions of a merge ----------------------------------------

  /** The functions after another builder with these events and functions was added. */
  function MergedFuncs<Func>(funcs: map<string, Func>, events: seq<Event>, other: map<string, Func>): map<string, Func>
  {
    if events == [] then funcs else funcs + other
  }

  /** Every function of `other` is the one that counts. */
  ghost predicate InForce<Func>(other: map<string, Func>, funcs: map<string, Func>) {
    forall name :: name in other ==> name in funcs && funcs[name] == other[name]
  }

  /** What a builder keeps of the pairs that it was offered. */
  function Kept(offered: seq<Event>, allowDuplicates: bool): seq<Event> {
    if allowDuplicates then offered else FirstOccurrences(offered)
  }

  /** The functions of the other builder are in force after a merge if and only if it was ever offered an event, or
      they all were in force before. */
  lemma MergeTakesFuncsIff<Func>(funcs: map<string, Func>, offered: seq<Event>, allowDuplicates: bool,
                                 other: map<string, Func>)
    ensures InForce(other, MergedFuncs(funcs, Kept(offered, allowDuplicates), other))
            <==> offered != [] || InForce(other, funcs)
  {
    if offered != [] {
      SameElements(offered, offered[0]);
      assert offered[0] in Kept(offered, allowDuplicates);
    }
  }

  /** The function of a builder that was given nothing else is lost. */
  lemma MergeLosesFunction<Func>(func: Func)
    ensures var other := map["ipc" := func];
            MergedFuncs(map[], Kept([], false), other) == map[] && !InForce(other, map[])
  {
    assert "ipc" in map["ipc" := func];
  }

  // ---- The builder -----------------------------------------------------

  class Builder<Func> {
    const allowDuplicates: bool
    var metricEvents: seq<Event>
    var addedKeys: set<string>
    var calculationFuncs: map<string, Func>
    ghost var offered: seq<Event>  // every pair that was ever offered

    /** Without duplicates the list is the deduplication of everything offered, and the index holds exactly its keys. */
    ghost predicate Valid()
      reads this
    {
      if allowDuplicates then metricEvents == offered
      else metricEvents == FirstOccurrences(offered) && addedKeys == Keys(metricEvents)
    }

    constructor (allowDuplicates: bool)
      ensures Valid() && this.allowDuplicates == allowDuplicates
      ensures offered == [] && metricEvents == [] && calculationFuncs == map[]
    {
      this.allowDuplicates := allowDuplicates;
      metricEvents, addedKeys, calculationFuncs, offered := [], {}, map[], [];
    }

    /** One pass of the loops: the key is inserted, and the pair is appended if the key was new. */
    method Offer(e: Event)
      requires Valid()
      modifies this
      ensures Valid() && offered == old(offered) + [e] && calculationFuncs == old(calculationFuncs)
    {
      hide FirstOccurrences, Key, Keys;
      var key := Key(e);
      OfferStep(offered, e);
      if allowDuplicates {
        metricEvents := metricEvents + [e];
      } else if key !in addedKeys {
        addedKeys := addedKeys + {key};
        metricEvents := metricEvents + [e];
      }
      offered := offered + [e];
    }

    /** The list holds exactly the pairs that were offered. */
    lemma EventsAre()
      requires Valid()
      ensures forall e :: e in metricEvents <==> e in offered
    {
      forall e ensures e in metricEvents <==> e in offered {
        SameElements(offered, e);
      }
    }

    method AddCodes(name: string, codes: seq<nat>)
      requires Valid()
      modifies this
      ensures Valid() && calculationFuncs == old(calculationFuncs)
      ensures offered == old(offered) + Named(name, codes)
      ensures forall e :: e in metricEvents <==> e in old(metricEvents) || (e.name == name && e.code in codes)
    {
      hide Key, Keys, FirstOccurrences, Named;
      EventsAre();
      NamedHas(name, codes);
      NamedAll(name, codes);
      if codes == [] {
        return;
      }
      for i := 0 to |codes|
        invariant Valid() && calculationFuncs == old(calculationFuncs)
        invariant offered == old(offered) + Named(name, codes)[..i]
      {
        NamedNext(name, codes, i);
        Offer(Event(name, codes[i]));
      }
      EventsAre();
    }

    method AddEvents(events: seq<Event>)
      requires Valid()
      modifies this
      ensures Valid() && calculationFuncs == old(calculationFuncs)
      ensures offered == old(offered) + events
      ensures forall e :: e in metricEvents <==> e in old(metricEvents) || e in events
    {
      hide Key, Keys, FirstOccurrences;
      EventsAre();
      if events == [] {
        return;
      }
      for i := 0 to |events|
        invariant Valid() && calculationFuncs == old(calculationFuncs)
        invariant offered == old(offered) + events[..i]
      {
        Offer(events[i]);
      }
      assert events[..|events|] == events;
      EventsAre();
    }

    /** The other builder's functions replace those of the same name, but only if it has any events. A builder
        that allows duplicates must not be added to itself: it would grow while it is being read. */
    method AddBuilder(mb: Builder<Func>)
      requires Valid() && mb.Valid() && (mb == this ==> !allowDuplicates)
      modifies this
      ensures Valid()
      ensures offered == old(offered) + old(mb.metricEvents)
      ensures forall e :: e in metricEvents <==> e in old(metricEvents) || e in old(mb.metricEvents)
      ensures calculationFuncs
           == MergedFuncs(old(calculationFuncs), old(mb.metricEvents), old(mb.calculationFuncs))
    {
      if mb.metricEvents == [] {
        return;
      }
      ghost var funcs := mb.calculationFuncs;
      AddEvents(mb.metricEvents);
      calculationFuncs := calculationFuncs + mb.calculationFuncs;
    }

    method Build(metricName: string, func: Func)
      requires Valid()
      modifies this
      ensures Valid() && offered == old(offered)
      ensures calculationFuncs == old(calculationFuncs)[metricName := func]
    {
      calculationFuncs := calculationFuncs[metricName := func];
    }

    method EventNames() returns (names: seq<string>)
      ensures |names| == |metricEvents| && forall i :: 0 <= i < |names| ==> names[i] == metricEvents[i].name
    {
      names := [];
      for i := 0 to |metricEvents|
        invariant |names| == i && forall k :: 0 <= k < i ==> names[k] == metricEvents[k].name
      {
        names := names + [metricEvents[i].name];
      }
    }
  }

  function Named(name: string, codes: seq<nat>): seq<Event> {
    seq(|codes|, i requires 0 <= i < |codes| => Event(name, codes[i]))
  }

  lemma NamedHas(name: string, codes: seq<nat>)
    ensures codes == [] ==> Named(name, codes) == []
    ensures forall e :: e in Named(name, codes) <==> e.name == name && e.code in codes
  {
    var all := Named(name, codes);
    forall e ensures e in all <==> e.name == name && e.code in codes {
      if e.name == name && e.code in codes {
        var i :| 0 <= i < |codes| && codes[i] == e.code;
        assert all[i] == e;
      }
    }
  }

  lemma NamedNext(name: string, codes: seq<nat>, i: nat)
    requires i < |codes|
    ensures |Named(name, codes)| == |codes|
    ensures Named(name, codes)[..i + 1] == Named(name, codes)[..i] + [Event(name, codes[i])]
  {
  }

  lemma NamedAll(name: string, codes: seq<nat>)
    ensures |Named(name, codes)| == |codes| && Named(name, codes)[..|codes|] == Named(name, codes)
  {
  }

  /** What a caller can rely on after any sequence of calls: the list holds exactly the pairs offered, each once,
      in the order in which they were first offered. */
  lemma DeduplicationIsStable(offered: seq<Event>)
    ensures var f := FirstOccurrences(offered);
            && (forall e :: e in f <==> e in offered)
            && Distinct(f)
            && (forall i, j :: 0 <= i < j < |f| ==>
                  f[i] in offered && f[j] in offered && IndexOf(offered, f[i]) < IndexOf(offered, f[j]))
  {
    var f := FirstOccurrences(offered);
    forall e ensures e in f <==> e in offered {
      SameElements(offered, e);
    }
    NoDuplicates(offered);
    forall i, j | 0 <= i < j < |f|
      ensures f[i] in offered && f[j] in offered && IndexOf(offered, f[i]) < IndexOf(offered, f[j])
    {
      OrderedByFirst(offered, i, j);
    }
  }

  lemma SnocAgrees(s: seq<Event>, t: seq<Event>, e: Event)
    requires FirstOccurrences(s) == FirstOccurrences(t)
    ensures FirstOccurrences(s + [e]) == FirstOccurrences(t + [e])
  {
    FirstOccurrencesSnoc(s, e);
    FirstOccurrencesSnoc(t, e);
  }

  lemma KnownChangesNothing(s: seq<Event>, e: Event)
    requires e in s
    ensures FirstOccurrences(s + [e]) == FirstOccurrences(s)
  {
    SameElements(s, e);
    FirstOccurrencesSnoc(s, e);
  }

  lemma MergeStep(a: seq<Event>, b: seq<Event>, e: Event)
    requires FirstOccurrences(a + FirstOccurrences(b)) == FirstOccurrences(a + b)
    ensures FirstOccurrences(a + FirstOccurrences(b + [e])) == FirstOccurrences(a + (b + [e]))
  {
    hide *;
    var kept := FirstOccurrences(b);
    SameElements(b, e);
    FirstOccurrencesSnoc(b, e);
    assert a + (b + [e]) == a + b + [e];
    if e in b {
      KnownChangesNothing(a + b, e);
      assert kept + [] == kept;
    } else {
      SnocAgrees(a + kept, a + b, e);
      assert a + (kept + [e]) == a + kept + [e];
    }
  }

  /** Offering what another builder kept is as good as offering everything that builder was offered. */
  lemma {:induction false} MergeKeepsAll(a: seq<Event>, b: seq<Event>)
    ensures FirstOccurrences(a + FirstOccurrences(b)) == FirstOccurrences(a + b)
  {
    if b == [] {
      assert FirstOccurrences(b) == b;
    } else {
      hide *;
      var n := |b| - 1;
      MergeKeepsAll(a, b[..n]);
      MergeStep(a, b[..n], b[n]);
      assert b == b[..n] + [b[n]];
    }
  }
}
