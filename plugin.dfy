/**
 * CommentPlugin itself: the configured annotation set with the options of
 * each annotation, and the generator hooks that write comments, lombok
 * annotations and mapping-file edits.
 */
module Plugin {
  import opened Wrappers
  import opened Strings
  import opened Lombok
  import opened Configuration
  import opened Dom
  import opened ResultMap
  import opened Comments

  /** The rendered annotations, one per enabled annotation, in set order. */
  function Rendered(enabled: seq<Annotation>, options: map<Annotation, seq<string>>): (r: seq<string>)
    requires forall a: Annotation :: a in options
    ensures |r| == |enabled|
  {
    if enabled == [] then []
    else Rendered(enabled[..|enabled| - 1], options)
         + [Annotated(enabled[|enabled| - 1].Name(), options[enabled[|enabled| - 1]])]
  }

  /** The i-th rendered annotation is the i-th enabled annotation with its options. */
  lemma {:induction false} RenderedAt(enabled: seq<Annotation>, options: map<Annotation, seq<string>>, i: nat)
    requires forall a: Annotation :: a in options
    requires i < |enabled|
    ensures Rendered(enabled, options)[i] == Annotated(enabled[i].Name(), options[enabled[i]])
    decreases |enabled|
  {
    var init, last := enabled[..|enabled| - 1], enabled[|enabled| - 1];
    var prev, text := Rendered(init, options), Annotated(last.Name(), options[last]);
    assert Rendered(enabled, options) == prev + [text];
    if i < |init| {
      RenderedAt(init, options, i);
      assert enabled[i] == init[i] && (prev + [text])[i] == prev[i];
    } else {
      assert i == |prev| && enabled[i] == last && (prev + [text])[i] == text;
    }
  }

  /** The lombok classes imported for the enabled annotations. */
  function Imports(enabled: seq<Annotation>): (r: set<string>)
    ensures forall a :: a in enabled ==> a.ClassName() in r
    ensures enabled == [] ==> r == {}
  {
    set a | a in enabled :: a.ClassName()
  }

  /** A class is imported exactly when it is the class of an enabled annotation. */
  lemma ImportsExact(enabled: seq<Annotation>, c: string)
    ensures c in Imports(enabled) <==> exists a :: a in enabled && a.ClassName() == c
  {
  }

  /** One more annotation adds its class to the imports and its text to the rendered list. */
  lemma RenderStep(imports: set<string>, texts: seq<string>, enabled: seq<Annotation>,
                   options: map<Annotation, seq<string>>, k: nat)
    requires forall a: Annotation :: a in options
    requires k < |enabled|
    ensures imports + Imports(enabled[..k + 1]) == imports + Imports(enabled[..k]) + {enabled[k].ClassName()}
    ensures texts + Rendered(enabled[..k + 1], options)
            == texts + Rendered(enabled[..k], options) + [Annotated(enabled[k].Name(), options[enabled[k]])]
  {
    assert enabled[..k + 1][..k] == enabled[..k];
    assert enabled[..k + 1] == enabled[..k] + [enabled[k]];
  }

  /** The value of the first "column" attribute, by the source's search loop. */
  method FindColumn(attrs: seq<Attribute>) returns (col: Option<string>)
    ensures col == ColumnOf(attrs)
  {
    col := None;
    var k := 0;
    while k < |attrs|
      invariant 0 <= k <= |attrs|
      invariant ColumnOf(attrs[k..]) == ColumnOf(attrs)
    {
      if EqualsIgnoreCase(attrs[k].name, "column") {
        col := Some(attrs[k].value);
        break;
      }
      assert attrs[k..][1..] == attrs[k + 1..];
      k := k + 1;
    }
  }

  /** The note of one element, computed as the source does between reading the column and storing the comment. */
  method NoteOf(n: Node, table: Table) returns (note: Option<string>)
    requires n.Element? && Resolvable(n, table.alias)
    ensures note == Note(n, table)
  {
    note := None;
    var attrs := n.attributes;
    if attrs != [] {
      var col := FindColumn(attrs);
      if col.Some? {
        var c := col.value;
        if table.alias.Some? {
          c := c[|table.alias.value| + 1..];
        }
        if c in table.columns {
          var ic := table.columns[c];
          if ic.remarks.Some? && |ic.remarks.value| > 1 {
            note := Some("<!-- " + ic.remarks.value + " -->");
          }
        }
      }
    }
  }

  /** Removes the first attribute named `name`, ignoring case, from the element. */
  method RemoveAttribute(element: XmlElement, name: string)
    modifies element
    ensures element.attributes == RemoveFirst(old(element.attributes), name)
    ensures element.name == old(element.name) && element.elements == old(element.elements)
  {
    var attrs := element.attributes;
    RemoveFirstAt(attrs, name);
    if attrs != [] {
      var k := 0;
      while k < |attrs| && !EqualsIgnoreCase(attrs[k].name, name)
        invariant 0 <= k <= |attrs|
        invariant forall m :: 0 <= m < k ==> !EqualsIgnoreCase(attrs[m].name, name)
      {
        k := k + 1;
      }
      if k < |attrs| {
        element.attributes := attrs[..k] + attrs[k + 1..];
      }
    }
  }

  /**
   * Drops the text children of a result map and puts a blank line and the
   * column's remark, as an XML comment, in front of each entry whose column
   * has one.
   */
  method CommentResultMap(element: XmlElement, table: Table)
    requires AllResolvable(element.elements, table.alias)
    modifies element
    ensures element.elements == Commented(old(element.elements), table)
    ensures element.name == old(element.name) && element.attributes == old(element.attributes)
  {
    var es := element.elements;
    if es == [] {
      return;
    }
    var kept, notes, hasNotes := DropText(es, table);
    CommentedIgnoresText(es, table);
    element.elements := kept;
    if !hasNotes {
      NoNotes(kept, table);
      return;
    }
    var result := InsertNotes(kept, notes, table);
    element.elements := result;
  }

  /**
   * The first pass of the result-map comments: the children without their
   * text nodes, each kept element's note, and whether any note was found.
   */
  method DropText(es: seq<Node>, table: Table) returns (kept: seq<Node>, notes: seq<Option<string>>, hasNotes: bool)
    requires AllResolvable(es, table.alias)
    ensures kept == ElementsOf(es) && AllResolvable(kept, table.alias)
    ensures notes == NotesOf(kept, table)
    ensures hasNotes <==> NoteCount(kept, table) > 0
  {
    kept, notes, hasNotes := [], [], false;
    for k := 0 to |es|
      invariant kept == ElementsOf(es[..k]) && AllResolvable(kept, table.alias)
      invariant notes == NotesOf(kept, table)
      invariant hasNotes <==> NoteCount(kept, table) > 0
    {
      KeepStep(es, k, table);
      if es[k].Element? {
        var note := NoteOf(es[k], table);
        OneMore(kept, es[k], table);
        kept := kept + [es[k]];
        notes := notes + [note];
        if note.Some? {
          hasNotes := true;
        }
      }
    }
    assert es[..|es|] == es;
  }

  /** The second pass: each element, preceded by a blank line and its note when it has one. */
  method InsertNotes(kept: seq<Node>, notes: seq<Option<string>>, table: Table) returns (result: seq<Node>)
    requires AllResolvable(kept, table.alias) && forall n :: n in kept ==> n.Element?
    requires notes == NotesOf(kept, table)
    ensures result == Commented(kept, table)
  {
    result := [];
    for m := 0 to |kept|
      invariant result == Commented(kept[..m], table)
    {
      InsertStep(kept, m, table);
      NotesOfAt(kept, m, table);
      PieceOf(kept[m], table);
      if notes[m].Some? {
        result := result + [Text(""), Text(notes[m].value)];
      }
      result := result + [kept[m]];
    }
    assert kept[..|kept|] == kept;
  }

  /** The notes of the elements, in order. */
  function NotesOf(ns: seq<Node>, table: Table): seq<Option<string>>
    requires AllResolvable(ns, table.alias)
  {
    if ns == [] then []
    else
      assert ns[|ns| - 1] in ns;
      assert forall n :: n in ns[..|ns| - 1] ==> n in ns;
      NotesOf(ns[..|ns| - 1], table) + [Note(ns[|ns| - 1], table)]
  }

  lemma {:induction false} NotesOfAt(ns: seq<Node>, m: nat, table: Table)
    requires AllResolvable(ns, table.alias) && m < |ns|
    ensures |NotesOf(ns, table)| == |ns| && ns[m] in ns
    ensures NotesOf(ns, table)[m] == Note(ns[m], table)
    decreases |ns|
  {
    var init := ns[..|ns| - 1];
    assert ns[|ns| - 1] in ns;
    assert forall n :: n in init ==> n in ns;
    if |init| > 0 {
      NotesOfAt(init, if m < |init| then m else 0, table);
    } else {
      assert NotesOf(init, table) == [];
    }
  }

  /** One step of the first pass: an element is kept with its note, text is dropped. */
  lemma KeepStep(es: seq<Node>, k: nat, table: Table)
    requires AllResolvable(es, table.alias) && k < |es|
    ensures es[..k + 1][..k] == es[..k] && es[k] in es
    ensures ElementsOf(es[..k + 1]) == ElementsOf(es[..k]) + (if es[k].Text? then [] else [es[k]])
  {
    assert es[..k + 1][..k] == es[..k];
  }

  /** Appending a resolvable element extends the kept elements, their notes and the note count. */
  lemma OneMore(kept: seq<Node>, n: Node, table: Table)
    requires AllResolvable(kept, table.alias) && Resolvable(n, table.alias)
    ensures AllResolvable(kept + [n], table.alias)
    ensures NotesOf(kept + [n], table) == NotesOf(kept, table) + [Note(n, table)]
    ensures NoteCount(kept + [n], table) == NoteCount(kept, table) + if Note(n, table).Some? then 1 else 0
  {
    assert (kept + [n])[..|kept|] == kept;
  }

  /** One step of the second pass: the next element's piece is appended. */
  lemma InsertStep(kept: seq<Node>, m: nat, table: Table)
    requires AllResolvable(kept, table.alias) && m < |kept|
    ensures kept[m] in kept && AllResolvable(kept[..m], table.alias) && AllResolvable(kept[..m + 1], table.alias)
    ensures Commented(kept[..m + 1], table) == Commented(kept[..m], table) + Piece(kept[m], table)
  {
    assert kept[..m + 1][..m] == kept[..m];
    assert forall n :: n in kept[..m + 1] ==> n in kept;
    assert forall n :: n in kept[..m] ==> n in kept;
  }

  /** The piece of an element: itself, preceded by a blank line and its note when it has one. */
  lemma PieceOf(n: Node, table: Table)
    requires n.Element? && Resolvable(n, table.alias)
    ensures Piece(n, table) == if Note(n, table).Some? then [Text(""), Text(Note(n, table).value), n] else [n]
  {
  }

  /** Elements none of which has a note are left as they are. */
  lemma {:induction false} NoNotes(ns: seq<Node>, table: Table)
    requires AllResolvable(ns, table.alias)
    requires forall n :: n in ns ==> n.Element?
    requires NoteCount(ns, table) == 0
    ensures Commented(ns, table) == ns
    decreases |ns|
  {
    if ns != [] {
      var init := ns[..|ns| - 1];
      assert ns[|ns| - 1] in ns;
      assert forall n :: n in init ==> n in ns;
      NoNotes(init, table);
    }
  }

  /**
   * The option lists after the events: each event appends its option to the
   * list of its annotation.
   */
  function Collect(before: map<Annotation, seq<string>>, events: seq<Event>): (r: map<Annotation, seq<string>>)
    ensures r.Keys == before.Keys
  {
    if events == [] then before
    else
      var prev, e := Collect(before, events[..|events| - 1]), events[|events| - 1];
      if e.annotation in prev then prev[e.annotation := prev[e.annotation] + [e.Option()]] else prev
  }

  /** An annotation's list is its list before the events, followed by the options the events append to it. */
  lemma {:induction false} CollectOptions(before: map<Annotation, seq<string>>, events: seq<Event>, a: Annotation)
    requires a in before
    ensures Collect(before, events)[a] == before[a] + OptionsOf(events, a)
  {
    if events != [] {
      var init, e := events[..|events| - 1], events[|events| - 1];
      CollectOptions(before, init, a);
      if e.annotation == a {
        ConcatAssoc(before[a], OptionsOf(init, a), [e.Option()]);
      }
    }
  }

  /** Events in two batches collect what the first batch collects, followed by the second. */
  lemma {:induction false} CollectAppend(before: map<Annotation, seq<string>>, events: seq<Event>, more: seq<Event>)
    ensures Collect(before, events + more) == Collect(Collect(before, events), more)
    decreases |more|
  {
    if more == [] {
      assert events + more == events;
    } else {
      var init := more[..|more| - 1];
      assert (events + more)[..|events + more| - 1] == events + init;
      assert (events + more)[|events + more| - 1] == more[|more| - 1];
      CollectAppend(before, events, init);
    }
  }

  /** One pass of the inner loop's body: the option is appended and the annotation enabled. */
  lemma ConfigureStep(before: map<Annotation, seq<string>>, start: seq<Annotation>, events: seq<Event>, e: Event)
    requires e.annotation in before
    ensures Collect(before, events + [e])
            == Collect(before, events)[e.annotation := Collect(before, events)[e.annotation] + [OptionText(e.name, e.value)]]
    ensures Enabled(start, events + [e]) == AddAll(Add(Enabled(start, events), e.annotation), Dependencies(e.annotation))
  {
    assert (events + [e])[..|events|] == events;
  }

  /** The plugin object. */
  class CommentPlugin {
    /** The enabled annotations in insertion order (a LinkedHashSet in the source). */
    var annotations: seq<Annotation>
    /** The option strings collected for each annotation (held by the enum constants in the source). */
    var options: map<Annotation, seq<string>>

    /** The set holds each annotation once, keeps the constructor dependency, and every annotation has an option list. */
    ghost predicate Valid()
      reads this
    {
      Distinct(annotations) && DependenciesFollow(annotations) && forall a: Annotation :: a in options
    }

    /** A new plugin has no annotation enabled and no options collected. */
    constructor ()
      ensures Valid() && annotations == []
      ensures forall a: Annotation :: options[a] == []
    {
      annotations := [];
      options := map a: Annotation | a in Values :: [];
      ValuesComplete();
    }

    /** Appends the option text for property `key` = `value` to annotation `a`. */
    method AppendOptions(a: Annotation, key: string, value: string)
      requires a in options
      modifies this
      ensures options == old(options)[a := old(options)[a] + [OptionText(key, value)]]
      ensures annotations == old(annotations)
      ensures old(Valid()) ==> Valid()
    {
      var keyPart := KeyPart(key);
      var valuePart := ValuePart(value);
      var option := keyPart + "=" + Quote(valuePart);
      options := options[a := options[a] + [option]];
    }

    /** Appends the option for `key` = `value` to `a`, then enables `a` and its dependencies. */
    method EnableWithOption(a: Annotation, key: string, value: string)
      requires a in options
      modifies this
      ensures options == old(options)[a := old(options)[a] + [OptionText(key, value)]]
      ensures annotations == AddAll(Add(old(annotations), a), Dependencies(a))
    {
      AppendOptions(a, key, value);
      annotations := Add(annotations, a);
      annotations := AddAll(annotations, Dependencies(a));
    }

    /**
     * Reads the configuration: the data annotation is always enabled; a key
     * without a dot whose value is true and that names an annotation enables
     * that annotation once per property starting with the key and a dot,
     * appending that property's option each time.
     */
    method SetProperties(props: seq<Property>)
      requires Valid()
      modifies this
      ensures Valid()
      ensures annotations == Configured(old(annotations), props)
      ensures forall a: Annotation :: options[a] == old(options)[a] + OptionsOf(Events(props, props), a)
    {
      ghost var before, initial := options, annotations;
      annotations := Add(annotations, Data);
      ghost var start := annotations;
      ghost var events: seq<Event> := [];
      for i := 0 to |props|
        invariant events == Events(props[..i], props)
        invariant annotations == Enabled(start, events)
        invariant options == Collect(before, events)
      {
        EventsStep(props, props, i);
        var annotationName := props[i].name;
        if '.' in annotationName {
          continue;
        }
        var value := props[i].value;
        if !ParseBoolean(value) {
          continue;
        }
        var found := GetValueOf(annotationName);
        if found.None? {
          continue;
        }
        var annotation := found.value;
        var optionsPrefix := annotationName + ".";
        ghost var mid := options;
        ghost var matches := Matches(annotation, optionsPrefix, props);
        ConfigureAnnotation(annotation, optionsPrefix, props);
        EnabledAppend(start, events, matches);
        CollectAppend(before, events, matches);
        events := events + matches;
      }
      assert props[..|props|] == props;
      AddFacts(initial, Data);
      EnableKeepsDependencyOrder(initial, Data);
      EnabledInvariant(start, events);
      forall a: Annotation
        ensures options[a] == before[a] + OptionsOf(Events(props, props), a)
      {
        CollectOptions(before, events, a);
      }
    }

    /**
     * The inner loop of SetProperties for one selected annotation: each
     * property starting with `optionsPrefix` appends its option and enables
     * the annotation with its dependencies.
     */
    method ConfigureAnnotation(annotation: Annotation, optionsPrefix: string, props: seq<Property>)
      requires forall a: Annotation :: a in options
      modifies this
      ensures annotations == Enabled(old(annotations), Matches(annotation, optionsPrefix, props))
      ensures options == Collect(old(options), Matches(annotation, optionsPrefix, props))
      ensures old(Valid()) ==> Valid()
    {
      ghost var before, start := options, annotations;
      ghost var events: seq<Event> := [];
      for j := 0 to |props|
        invariant events == Matches(annotation, optionsPrefix, props[..j])
        invariant annotations == Enabled(start, events)
        invariant options == Collect(before, events)
      {
        MatchesStep(annotation, optionsPrefix, props, j);
        var propertyName := props[j].name;
        if !StartsWith(propertyName, optionsPrefix) {
          continue;
        }
        var propertyValue := props[j].value;
        ghost var e := Event(annotation, propertyName, propertyValue);
        ConfigureStep(before, start, events, e);
        EnableWithOption(annotation, propertyName, propertyValue);
        events := events + [e];
      }
      assert props[..|props|] == props;
      if Distinct(start) && DependenciesFollow(start) {
        EnabledInvariant(start, events);
      }
    }

    /** Imports and adds the enabled annotations, rendered with their options, to a model class. */
    method AddAnnotations(cls: TopLevelClass)
      requires Valid()
      modifies cls
      ensures cls.importedTypes == old(cls.importedTypes) + Imports(annotations)
      ensures cls.annotations == old(cls.annotations) + Rendered(annotations, options)
      ensures cls.javaDocLines == old(cls.javaDocLines)
    {
      var enabled, opts := annotations, options;
      ghost var imports, texts := cls.importedTypes, cls.annotations;
      for k := 0 to |enabled|
        invariant cls.importedTypes == imports + Imports(enabled[..k])
        invariant cls.annotations == texts + Rendered(enabled[..k], opts)
        invariant cls.javaDocLines == old(cls.javaDocLines)
      {
        var annotation := enabled[k];
        RenderStep(imports, texts, enabled, opts, k);
        cls.AddImportedType(annotation.ClassName());
        var text := AsAnnotation(annotation.Name(), opts[annotation]);
        cls.AddAnnotation(text);
      }
      assert enabled[..|enabled|] == enabled;
    }

    /** The model-class hook: replaces the class javadoc with the header, then adds the annotations. */
    method ModelBaseRecordClassGenerated(cls: TopLevelClass, table: Table, date: string) returns (r: bool)
      requires Valid()
      modifies cls
      ensures r
      ensures cls.javaDocLines == ClassHeader(table.qualifiedName, date)
      ensures cls.importedTypes == old(cls.importedTypes) + Imports(annotations)
      ensures cls.annotations == old(cls.annotations) + Rendered(annotations, options)
    {
      cls.javaDocLines := [];
      cls.javaDocLines := cls.javaDocLines + ["/**"];
      cls.javaDocLines := cls.javaDocLines + [Line(" Table: " + table.qualifiedName)];
      cls.javaDocLines := cls.javaDocLines + [Line(" Created by Mybatis Generator @Author Largo @Date on " + date)];
      cls.javaDocLines := cls.javaDocLines + [" */"];
      AddAnnotations(cls);
      r := true;
    }

    /** Replaces a field's javadoc with the remark, table, column and nullability lines. */
    method Comment(field: Field, table: Table, column: Column)
      modifies field
      ensures field.javaDocLines == FieldDoc(table.qualifiedName, column)
    {
      field.javaDocLines := [];
      field.javaDocLines := field.javaDocLines + ["/**"];
      var remark := column.remarks;
      if remark.Some? && |remark.value| > 1 {
        field.javaDocLines := field.javaDocLines + [Line(" " + remark.value)];
        field.javaDocLines := field.javaDocLines + [Line("")];
      }
      field.javaDocLines := field.javaDocLines + [Line(" Table:     " + table.qualifiedName)];
      field.javaDocLines := field.javaDocLines + [Line(" Column:    " + column.actualName)];
      field.javaDocLines := field.javaDocLines + [Line(" Nullable:  " + BoolText(column.nullable))];
      field.javaDocLines := field.javaDocLines + [" */"];
    }

    /** The model-field hook. */
    method ModelFieldGenerated(field: Field, table: Table, column: Column) returns (r: bool)
      modifies field
      ensures r && field.javaDocLines == FieldDoc(table.qualifiedName, column)
    {
      Comment(field, table, column);
      r := true;
    }

    /** The two result-map hooks (with and without BLOB columns). */
    method ResultMapElementGenerated(element: XmlElement, table: Table) returns (r: bool)
      requires AllResolvable(element.elements, table.alias)
      modifies element
      ensures r && element.elements == Commented(old(element.elements), table)
      ensures element.name == old(element.name) && element.attributes == old(element.attributes)
    {
      CommentResultMap(element, table);
      r := true;
    }

    /** The five insert and update statement hooks: each drops the statement's parameterType attribute. */
    method StatementElementGenerated(element: XmlElement) returns (r: bool)
      modifies element
      ensures r && element.attributes == RemoveFirst(old(element.attributes), "parameterType")
      ensures element.name == old(element.name) && element.elements == old(element.elements)
    {
      RemoveAttribute(element, "parameterType");
      r := true;
    }

    /** The mapping-document hook: appends the footer after the root element's existing children. */
    method SqlMapDocumentGenerated(document: Document, timestamp: string) returns (r: bool)
      modifies document.rootElement
      ensures r && document.rootElement.elements == old(document.rootElement.elements) + Footer(timestamp)
      ensures document.rootElement.attributes == old(document.rootElement.attributes)
      ensures document.rootElement.name == old(document.rootElement.name)
    {
      var root := document.rootElement;
      root.elements := root.elements + [Text("")];
      root.elements := root.elements + [Text(Banner(timestamp))];
      root.elements := root.elements + [Text("<!-- Your codes goes here!!! -->")];
      root.elements := root.elements + [Text("")];
      r := true;
    }

    /** The mapper-interface hook: imports and adds MyBatis's Mapper annotation. */
    method ClientGenerated(iface: Interface) returns (r: bool)
      modifies iface
      ensures r
      ensures iface.importedTypes == old(iface.importedTypes) + {"org.apache.ibatis.annotations.Mapper"}
      ensures iface.annotations == old(iface.annotations) + ["@Mapper"]
    {
      iface.AddImportedType("org.apache.ibatis.annotations.Mapper");
      iface.AddAnnotation("@Mapper");
      r := true;
    }

    /** The configuration check: every configuration is accepted, and no warning is added. */
    method Validate(warnings: seq<string>) returns (r: bool, warningsAfter: seq<string>)
      ensures r && warningsAfter == warnings
    {
      r, warningsAfter := true, warnings;
    }

    /** The getter and setter hooks: accessors are never generated (lombok's Data supplies them). */
    method ModelAccessorMethodGenerated() returns (r: bool)
      ensures !r
    {
      r := false;
    }
  }
}
