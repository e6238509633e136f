/**
 * What CommentPlugin.setProperties computes, as functions of the property
 * list: the insertion-ordered set of enabled annotations and the option
 * strings appended to each annotation.
 *
 * The nested loops of setProperties are described by the sequence of
 * "events" they produce: one event per (enabling key, option key) pair, in
 * loop order, carrying the annotation and the option text appended for it.
 * Each event also adds the annotation and its dependencies to the set.
 */
module Configuration {
  import opened Wrappers
  import opened Strings
  import opened Lombok

  /** One configuration entry: a property name and its value. */
  datatype Property = Property(name: string, value: string)

  /**
   * One pass of the inner loop's body: the annotation being configured and
   * the option property (`key.option`, value) it appends.
   */
  datatype Event = Event(annotation: Annotation, name: string, value: string)
  {
    /** The option string appended to the annotation. */
    function Option(): string
    {
      OptionText(name, value)
    }
  }

  /** The set discipline of the LinkedHashSet: no annotation twice. */
  predicate Distinct(s: seq<Annotation>)
  {
    forall i, j :: 0 <= i < j < |s| ==> s[i] != s[j]
  }

  /**
   * Wherever the all-args constructor stands, the no-args constructor stands
   * right after it or somewhere before it.
   */
  predicate DependenciesFollow(s: seq<Annotation>)
  {
    forall i {:trigger s[i]} :: 0 <= i < |s| && s[i] == AllArgsConstructor ==>
      (i + 1 < |s| && s[i + 1] == NoArgsConstructor) || NoArgsConstructor in s[..i]
  }

  /** LinkedHashSet.add: append unless present. */
  function Add(s: seq<Annotation>, a: Annotation): (r: seq<Annotation>)
    ensures a in r && |s| <= |r| <= |s| + 1
  {
    if a in s then s else s + [a]
  }

  /** LinkedHashSet.addAll: add each element in order. */
  function AddAll(s: seq<Annotation>, xs: seq<Annotation>): (r: seq<Annotation>)
    ensures |s| <= |r| <= |s| + |xs|
    decreases |xs|
  {
    if xs == [] then s else AddAll(Add(s, xs[0]), xs[1..])
  }

  /** The effect of one event on the set: the annotation, then its dependencies. */
  function Enable(s: seq<Annotation>, a: Annotation): (r: seq<Annotation>)
    ensures |s| <= |r| <= |s| + 2
  {
    AddAll(Add(s, a), Dependencies(a))
  }

  /** The set after a sequence of events. */
  function Enabled(start: seq<Annotation>, events: seq<Event>): (r: seq<Annotation>)
    ensures |start| <= |r| <= |start| + 2 * |events|
  {
    if events == [] then start
    else Enable(Enabled(start, events[..|events| - 1]), events[|events| - 1].annotation)
  }

  /** The options the events append to annotation `a`, in order. */
  function OptionsOf(events: seq<Event>, a: Annotation): (r: seq<string>)
    ensures |r| <= |events|
  {
    if events == [] then []
    else OptionsOf(events[..|events| - 1], a) + (if events[|events| - 1].annotation == a then [events[|events| - 1].Option()] else [])
  }

  /**
   * The filters of the outer loop: a key without a dot whose value parses as
   * true selects the annotation it names, if it names one.
   */
  function Selected(key: string, value: string): (r: Option<Annotation>)
    ensures forall a: Annotation ::
      r == Some(a) <==> '.' !in key && ParseBoolean(value) && EqualsIgnoreCase(key, a.ParamName())
  {
    if '.' in key then None
    else if !ParseBoolean(value) then None
    else GetValueOf(key)
  }

  /** The inner loop for annotation `a`: one event per property whose name starts with `prefix`. */
  function Matches(a: Annotation, prefix: string, inner: seq<Property>): (r: seq<Event>)
    ensures |r| <= |inner|
  {
    if inner == [] then []
    else
      var last := inner[|inner| - 1];
      Matches(a, prefix, inner[..|inner| - 1])
        + (if StartsWith(last.name, prefix) then [Event(a, last.name, last.value)] else [])
  }

  /** The outer loop over `outer`, each selecting key running the inner loop over `all`. */
  function Events(outer: seq<Property>, all: seq<Property>): (r: seq<Event>)
    ensures |r| <= |outer| * |all|
  {
    if outer == [] then []
    else
      var key, value := outer[|outer| - 1].name, outer[|outer| - 1].value;
      assert (|outer| - 1) * |all| + |all| == |outer| * |all|;
      Events(outer[..|outer| - 1], all)
        + match Selected(key, value)
          case None => []
          case Some(a) => Matches(a, key + ".", all)
  }

  /** The set setProperties leaves when it starts from `start`. */
  function Configured(start: seq<Annotation>, props: seq<Property>): (r: seq<Annotation>)
    ensures Data in r && |start| <= |r|
  {
    EnabledMembers(Add(start, Data), Events(props, props), Data);
    Enabled(Add(start, Data), Events(props, props))
  }

  /**
   * An annotation is enabled by the properties when some key names it (no
   * dot, value true ignoring case, name equal ignoring case) and some
   * property name starts with that key followed by a dot.
   */
  ghost predicate Enables(props: seq<Property>, a: Annotation)
  {
    exists p, q :: p in props && q in props && Selected(p.name, p.value) == Some(a) && StartsWith(q.name, p.name + ".")
  }

  // ---- the set operations ----

  lemma AddFacts(s: seq<Annotation>, a: Annotation)
    ensures forall x :: x in Add(s, a) <==> x in s || x == a
    ensures |s| <= |Add(s, a)| && Add(s, a)[..|s|] == s
    ensures Distinct(s) ==> Distinct(Add(s, a))
  {
  }

  lemma {:induction false} AddAllFacts(s: seq<Annotation>, xs: seq<Annotation>)
    ensures forall x :: x in AddAll(s, xs) <==> x in s || x in xs
    ensures |s| <= |AddAll(s, xs)| && AddAll(s, xs)[..|s|] == s
    ensures Distinct(s) ==> Distinct(AddAll(s, xs))
    decreases |xs|
  {
    if xs != [] {
      AddFacts(s, xs[0]);
      AddAllFacts(Add(s, xs[0]), xs[1..]);
      assert xs == [xs[0]] + xs[1..];
      var t := Add(s, xs[0]);
      assert AddAll(s, xs)[..|s|] == AddAll(t, xs[1..])[..|t|][..|s|];
    }
  }

  lemma EnableFacts(s: seq<Annotation>, a: Annotation)
    ensures forall x :: x in Enable(s, a) <==> x in s || x == a || x in Dependencies(a)
    ensures |s| <= |Enable(s, a)| && Enable(s, a)[..|s|] == s
    ensures Distinct(s) ==> Distinct(Enable(s, a))
  {
    AddFacts(s, a);
    AddAllFacts(Add(s, a), Dependencies(a));
    var t := Add(s, a);
    assert Enable(s, a)[..|s|] == Enable(s, a)[..|t|][..|s|];
  }

  /** One event keeps the dependency order of a duplicate-free set. */
  lemma EnableKeepsDependencyOrder(s: seq<Annotation>, a: Annotation)
    requires Distinct(s) && DependenciesFollow(s)
    ensures DependenciesFollow(Enable(s, a))
  {
    var t := Add(s, a);
    var r := Enable(s, a);
    if a == AllArgsConstructor {
      assert [NoArgsConstructor][1..] == [];
      assert r == Add(t, NoArgsConstructor);
      if AllArgsConstructor in s {
        var k :| 0 <= k < |s| && s[k] == AllArgsConstructor;
        assert (k + 1 < |s| && s[k + 1] == NoArgsConstructor) || NoArgsConstructor in s[..k];
        if k + 1 < |s| && s[k + 1] == NoArgsConstructor {
          assert NoArgsConstructor in s;
        } else {
          var j :| 0 <= j < k && s[..k][j] == NoArgsConstructor;
          assert s[j] == NoArgsConstructor;
        }
        assert r == s;
      } else if NoArgsConstructor in s {
        assert r == s + [AllArgsConstructor];
        assert r[..|s|] == s;
        assert forall i :: 0 <= i < |s| ==> r[i] == s[i];
      } else {
        assert r == s + [AllArgsConstructor, NoArgsConstructor];
        forall i | 0 <= i < |r| && r[i] == AllArgsConstructor
          ensures (i + 1 < |r| && r[i + 1] == NoArgsConstructor) || NoArgsConstructor in r[..i]
        {
          assert i == |s|;
        }
      }
    } else {
      assert r == t;
      forall i | 0 <= i < |r| && r[i] == AllArgsConstructor
        ensures (i + 1 < |r| && r[i + 1] == NoArgsConstructor) || NoArgsConstructor in r[..i]
      {
        assert i < |s| && s[i] == AllArgsConstructor;
        assert (i + 1 < |s| && s[i + 1] == NoArgsConstructor) || NoArgsConstructor in s[..i];
        assert r[..i] == s[..i];
        assert i + 1 < |s| ==> r[i + 1] == s[i + 1];
      }
    }
  }

  /**
   * Events only ever append: the starting set stays a prefix, no annotation
   * appears twice, and the dependency order is kept.
   */
  lemma {:induction false} EnabledInvariant(start: seq<Annotation>, events: seq<Event>)
    requires Distinct(start) && DependenciesFollow(start)
    ensures |start| <= |Enabled(start, events)| && Enabled(start, events)[..|start|] == start
    ensures Distinct(Enabled(start, events)) && DependenciesFollow(Enabled(start, events))
  {
    if events != [] {
      var prev := Enabled(start, events[..|events| - 1]);
      EnabledInvariant(start, events[..|events| - 1]);
      EnableFacts(prev, events[|events| - 1].annotation);
      EnableKeepsDependencyOrder(prev, events[|events| - 1].annotation);
      assert Enabled(start, events)[..|start|] == Enabled(start, events)[..|prev|][..|start|];
    }
  }

  /** An annotation is in the set exactly when it was there, or an event added it or needs it. */
  lemma {:induction false} EnabledMembers(start: seq<Annotation>, events: seq<Event>, x: Annotation)
    ensures x in Enabled(start, events) <==>
      x in start || exists e :: e in events && (e.annotation == x || x in Dependencies(e.annotation))
  {
    if events != [] {
      var init := events[..|events| - 1];
      var last := events[|events| - 1];
      assert events == init + [last];
      EnabledMembers(start, init, x);
      EnableFacts(Enabled(start, init), last.annotation);
    }
  }

  // ---- the loops ----

  /** The inner loop produces an event for `a` for each property whose name starts with the prefix. */
  lemma {:induction false} MatchesMembers(a: Annotation, prefix: string, inner: seq<Property>, e: Event)
    ensures e in Matches(a, prefix, inner) <==>
      e.annotation == a && Property(e.name, e.value) in inner && StartsWith(e.name, prefix)
  {
    if inner != [] {
      var init := inner[..|inner| - 1];
      assert inner == init + [inner[|inner| - 1]];
      MatchesMembers(a, prefix, init, e);
    }
  }

  /**
   * The outer loop produces an event exactly for a selecting property of
   * `outer` and a property of `all` whose name starts with the selecting
   * key and a dot.
   */
  lemma {:induction false} EventsMembers(outer: seq<Property>, all: seq<Property>, e: Event)
    ensures e in Events(outer, all) <==>
      Property(e.name, e.value) in all
        && (exists p :: p in outer && Selected(p.name, p.value) == Some(e.annotation) && StartsWith(e.name, p.name + "."))
  {
    if outer != [] {
      var init := outer[..|outer| - 1];
      var last := outer[|outer| - 1];
      assert outer == init + [last];
      EventsMembers(init, all, e);
      match Selected(last.name, last.value)
      case None =>
      case Some(a) =>
        MatchesMembers(a, last.name + ".", all, e);
    }
  }

  /** The strings OptionsOf collects for `a` are the option strings of the events for `a`. */
  lemma {:induction false} OptionsOfMembers(events: seq<Event>, a: Annotation, o: string)
    ensures o in OptionsOf(events, a) <==> exists e :: e in events && e.annotation == a && e.Option() == o
  {
    if events != [] {
      var init := events[..|events| - 1];
      var last := events[|events| - 1];
      assert events == init + [last];
      OptionsOfMembers(init, a, o);
    }
  }

  // ---- what setProperties promises ----

  /** Some event is for `a` exactly when the properties enable `a`. */
  lemma EventFor(props: seq<Property>, a: Annotation)
    ensures (exists e :: e in Events(props, props) && e.annotation == a) <==> Enables(props, a)
  {
    if exists e :: e in Events(props, props) && e.annotation == a {
      var e :| e in Events(props, props) && e.annotation == a;
      EventEnables(props, e);
    }
    if Enables(props, a) {
      var p, q :| p in props && q in props && Selected(p.name, p.value) == Some(a) && StartsWith(q.name, p.name + ".");
      EventsMembers(props, props, Event(a, q.name, q.value));
    }
  }

  /** The annotation of each event is enabled by the properties. */
  lemma EventEnables(props: seq<Property>, e: Event)
    requires e in Events(props, props)
    ensures Enables(props, e.annotation)
  {
    EventsMembers(props, props, e);
    var p :| p in props && Selected(p.name, p.value) == Some(e.annotation) && StartsWith(e.name, p.name + ".");
    assert Property(e.name, e.value) in props;
  }

  /** Apart from Data, an annotation ends up in a fresh plugin's set exactly when enabled or needed. */
  lemma FreshMember(props: seq<Property>, a: Annotation)
    requires a != Data
    ensures a in Configured([], props) <==>
              Enables(props, a) || (a == NoArgsConstructor && Enables(props, AllArgsConstructor))
  {
    var events := Events(props, props);
    assert Add([], Data) == [Data];
    EnabledMembers([Data], events, a);
    EventFor(props, a);
    EventFor(props, AllArgsConstructor);
    if exists e :: e in events && (e.annotation == a || a in Dependencies(e.annotation)) {
      var e :| e in events && (e.annotation == a || a in Dependencies(e.annotation));
    }
    if a == NoArgsConstructor && Enables(props, AllArgsConstructor) {
      var e :| e in events && e.annotation == AllArgsConstructor;
    }
  }

  /**
   * From a fresh plugin: Data is present and first, no annotation appears
   * twice, the no-args constructor follows the all-args one, and any other
   * annotation is present exactly when the properties enable it (the
   * no-args constructor also when the all-args one is enabled).
   */
  lemma ConfiguredFromFresh(props: seq<Property>)
    ensures |Configured([], props)| > 0 && Configured([], props)[0] == Data
    ensures Distinct(Configured([], props)) && DependenciesFollow(Configured([], props))
    ensures forall a :: a != Data && a != NoArgsConstructor ==> (a in Configured([], props) <==> Enables(props, a))
    ensures NoArgsConstructor in Configured([], props) <==>
              Enables(props, NoArgsConstructor) || Enables(props, AllArgsConstructor)
  {
    assert Add([], Data) == [Data];
    EnabledInvariant([Data], Events(props, props));
    forall a | a != Data
      ensures a in Configured([], props) <==> Enables(props, a) || (a == NoArgsConstructor && Enables(props, AllArgsConstructor))
    {
      FreshMember(props, a);
    }
  }

  /**
   * The options appended to `a` are exactly the option strings of the
   * properties whose name starts with a key selecting `a` and a dot.
   */
  lemma ConfiguredOptions(props: seq<Property>, a: Annotation, o: string)
    ensures o in OptionsOf(Events(props, props), a) <==>
      exists p, q :: p in props && q in props && Selected(p.name, p.value) == Some(a)
        && StartsWith(q.name, p.name + ".") && o == OptionText(q.name, q.value)
  {
    if o in OptionsOf(Events(props, props), a) {
      OptionFromProperties(props, a, o);
    }
    if exists p, q :: p in props && q in props && Selected(p.name, p.value) == Some(a)
        && StartsWith(q.name, p.name + ".") && o == OptionText(q.name, q.value) {
      var p, q :| p in props && q in props && Selected(p.name, p.value) == Some(a)
        && StartsWith(q.name, p.name + ".") && o == OptionText(q.name, q.value);
      OptionOfProperties(props, p, q, a);
    }
  }

  /** Each collected option comes from a selecting key and an option property. */
  lemma OptionFromProperties(props: seq<Property>, a: Annotation, o: string)
    requires o in OptionsOf(Events(props, props), a)
    ensures exists p, q ::
      p in props && q in props && Selected(p.name, p.value) == Some(a)
        && StartsWith(q.name, p.name + ".") && o == OptionText(q.name, q.value)
  {
    OptionsOfMembers(Events(props, props), a, o);
    var e :| e in Events(props, props) && e.annotation == a && e.Option() == o;
    EventsMembers(props, props, e);
    var p :| p in props && Selected(p.name, p.value) == Some(a) && StartsWith(e.name, p.name + ".");
    var q := Property(e.name, e.value);
    assert p in props && q in props && Selected(p.name, p.value) == Some(a)
      && StartsWith(q.name, p.name + ".") && o == OptionText(q.name, q.value);
  }

  /** Each option property under a selecting key is collected. */
  lemma OptionOfProperties(props: seq<Property>, p: Property, q: Property, a: Annotation)
    requires p in props && q in props && Selected(p.name, p.value) == Some(a) && StartsWith(q.name, p.name + ".")
    ensures OptionText(q.name, q.value) in OptionsOf(Events(props, props), a)
  {
    var e := Event(a, q.name, q.value);
    EventsMembers(props, props, e);
    OptionsOfMembers(Events(props, props), a, e.Option());
  }

  /**
   * Each option appended for a property `key.option` under a selecting
   * `key` reads `option=quoted value`.
   */
  lemma SelectedOptionText(p: Property, q: Property, a: Annotation)
    requires Selected(p.name, p.value) == Some(a) && StartsWith(q.name, p.name + ".")
    ensures q.name == p.name + "." + q.name[|p.name| + 1..]
    ensures OptionText(q.name, q.value) == q.name[|p.name| + 1..] + "=" + Quote(ValuePart(q.value))
  {
    var option := q.name[|p.name| + 1..];
    assert q.name[..|p.name| + 1] == p.name + ".";
    assert q.name == q.name[..|p.name| + 1] + option;
    OptionTextOf(p.name, option, q.value);
  }

  /** The enabling key alone adds nothing: without a `builder.` option, Builder is not enabled. */
  lemma KeyWithoutOptionsAddsNothing()
    ensures Configured([], [Property("builder", "true")]) == [Data]
  {
    var props := [Property("builder", "true")];
    assert EqualsIgnoreCase("builder", Builder.ParamName());
    assert Selected("builder", "true") == Some(Builder);
    assert props[..0] == [];
    assert !StartsWith("builder", "builder.");
    assert Matches(Builder, "builder.", props) == Matches(Builder, "builder.", []) + [];
    assert "builder" + "." == "builder.";
    assert Events(props, props) == [];
    assert Add([], Data) == [Data];
  }

  // ---- one step of the loops ----

  /** One more outer-loop property adds that property's inner-loop events. */
  lemma EventsStep(outer: seq<Property>, all: seq<Property>, i: nat)
    requires i < |outer|
    ensures Events(outer[..i + 1], all) ==
              Events(outer[..i], all) +
              match Selected(outer[i].name, outer[i].value)
              case None => []
              case Some(a) => Matches(a, outer[i].name + ".", all)
  {
    assert outer[..i + 1][..i] == outer[..i];
  }

  /** One more inner-loop property adds at most its own event. */
  lemma MatchesStep(a: Annotation, prefix: string, inner: seq<Property>, j: nat)
    requires j < |inner|
    ensures Matches(a, prefix, inner[..j + 1]) ==
              Matches(a, prefix, inner[..j]) +
              (if StartsWith(inner[j].name, prefix) then [Event(a, inner[j].name, inner[j].value)] else [])
  {
    assert inner[..j + 1][..j] == inner[..j];
  }

  /** Events in two batches enable what the first batch enables, followed by the second. */
  lemma {:induction false} EnabledAppend(start: seq<Annotation>, events: seq<Event>, more: seq<Event>)
    ensures Enabled(start, events + more) == Enabled(Enabled(start, events), more)
    decreases |more|
  {
    if more == [] {
      assert events + more == events;
    } else {
      var init := more[..|more| - 1];
      assert (events + more)[..|events + more| - 1] == events + init;
      assert (events + more)[|events + more| - 1] == more[|more| - 1];
      EnabledAppend(start, events, init);
    }
  }

  /** One more event appends its option to its own annotation's list. */
  lemma OptionsOfSnoc(events: seq<Event>, e: Event, a: Annotation)
    ensures OptionsOf(events + [e], a) == OptionsOf(events, a) + (if e.annotation == a then [e.Option()] else [])
  {
    assert (events + [e])[..|events|] == events;
  }

  /** Events in two batches collect the options of the first batch, then those of the second. */
  lemma {:induction false} OptionsOfAppend(events: seq<Event>, more: seq<Event>, a: Annotation)
    ensures OptionsOf(events + more, a) == OptionsOf(events, a) + OptionsOf(more, a)
    decreases |more|
  {
    if more == [] {
      assert events + more == events;
    } else {
      var init, e := more[..|more| - 1], more[|more| - 1];
      assert more == init + [e];
      assert events + more == (events + init) + [e];
      OptionsOfAppend(events, init, a);
      OptionsOfSnoc(events + init, e, a);
      OptionsOfSnoc(init, e, a);
      ConcatAssoc(OptionsOf(events, a), OptionsOf(init, a), if e.annotation == a then [e.Option()] else []);
    }
  }
}
