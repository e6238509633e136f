/**
 * The mapping-file edits: attribute lookup and removal by case-insensitive
 * name, and the remark comments placed in front of the entries of a result
 * map.
 */
module ResultMap {
  import opened Wrappers
  import opened Strings
  import opened Dom

  /** The position of the first attribute whose name equals `name` ignoring letter case. */
  function FindAttribute(attrs: seq<Attribute>, name: string): (r: Option<nat>)
    ensures r.Some? ==> r.value < |attrs| && EqualsIgnoreCase(attrs[r.value].name, name)
    ensures r.Some? ==> forall k :: 0 <= k < r.value ==> !EqualsIgnoreCase(attrs[k].name, name)
    ensures r.None? <==> forall k :: 0 <= k < |attrs| ==> !EqualsIgnoreCase(attrs[k].name, name)
  {
    if attrs == [] then None
    else if EqualsIgnoreCase(attrs[0].name, name) then Some(0)
    else
      match FindAttribute(attrs[1..], name)
      case None => None
      case Some(k) => Some(k + 1)
  }

  // ---------------------------------------------------------------------
  // Attribute removal
  // ---------------------------------------------------------------------

  /** The attributes with the first one named `name` (ignoring case) taken out. */
  function RemoveFirst(attrs: seq<Attribute>, name: string): (r: seq<Attribute>)
    ensures |r| <= |attrs| <= |r| + 1
  {
    if attrs == [] then []
    else if EqualsIgnoreCase(attrs[0].name, name) then attrs[1..]
    else [attrs[0]] + RemoveFirst(attrs[1..], name)
  }

  /**
   * Removal takes out exactly the first case-insensitive match, keeps every
   * other attribute in order, and changes nothing when no attribute matches.
   */
  lemma {:induction false} RemoveFirstAt(attrs: seq<Attribute>, name: string)
    ensures FindAttribute(attrs, name).None? ==> RemoveFirst(attrs, name) == attrs
    ensures FindAttribute(attrs, name).Some? ==>
              var k := FindAttribute(attrs, name).value;
              RemoveFirst(attrs, name) == attrs[..k] + attrs[k + 1..]
    ensures |RemoveFirst(attrs, name)| == if FindAttribute(attrs, name).Some? then |attrs| - 1 else |attrs|
  {
    if attrs != [] && !EqualsIgnoreCase(attrs[0].name, name) {
      RemoveFirstAt(attrs[1..], name);
      match FindAttribute(attrs[1..], name)
      case None =>
      case Some(k) =>
        RemoveFirstPast(attrs, name, k);
    }
  }

  /** Past a first attribute that does not match, the removal point moves one place on. */
  lemma RemoveFirstPast(attrs: seq<Attribute>, name: string, k: nat)
    requires attrs != [] && !EqualsIgnoreCase(attrs[0].name, name)
    requires FindAttribute(attrs[1..], name) == Some(k)
    requires RemoveFirst(attrs[1..], name) == attrs[1..][..k] + attrs[1..][k + 1..]
    ensures RemoveFirst(attrs, name) == attrs[..k + 1] + attrs[k + 2..]
  {
    assert attrs[..k + 1] == [attrs[0]] + attrs[1..][..k];
    assert attrs[k + 2..] == attrs[1..][k + 1..];
    ConcatAssoc([attrs[0]], attrs[1..][..k], attrs[1..][k + 1..]);
  }

  /** Only the first of two matching attributes is removed, whatever the case of its name. */
  lemma RemoveFirstOnlyFirst(a: string, b: string)
    ensures RemoveFirst([Attribute("ParameterType", a), Attribute("id", b), Attribute("parameterType", b)], "parameterType")
            == [Attribute("id", b), Attribute("parameterType", b)]
  {
    assert EqualsIgnoreCase("ParameterType", "parameterType") by {
      assert Fold('P') == 'p';
    }
  }

  // ---------------------------------------------------------------------
  // Result-map comments
  // ---------------------------------------------------------------------

  /** The value of an element's first attribute named "column" (ignoring case), if any. */
  function ColumnOf(attrs: seq<Attribute>): (r: Option<string>)
    ensures r.None? ==> forall i :: 0 <= i < |attrs| ==> !EqualsIgnoreCase(attrs[i].name, "column")
  {
    if attrs == [] then None
    else if EqualsIgnoreCase(attrs[0].name, "column") then Some(attrs[0].value)
    else ColumnOf(attrs[1..])
  }

  /** The column is the value of the attribute the case-insensitive search finds first. */
  lemma {:induction false} ColumnOfFirst(attrs: seq<Attribute>)
    ensures ColumnOf(attrs).None? <==> FindAttribute(attrs, "column").None?
    ensures ColumnOf(attrs).Some? ==> ColumnOf(attrs).value == attrs[FindAttribute(attrs, "column").value].value
  {
    if attrs != [] && !EqualsIgnoreCase(attrs[0].name, "column") {
      ColumnOfFirst(attrs[1..]);
    }
  }

  /**
   * When the table has an alias, the configured alias and its separator
   * are cut off the front of the column text by length alone: the
   * characters themselves are not checked.
   */
  function ResolveColumn(col: string, alias: Option<string>): (r: string)
    requires alias.Some? ==> |alias.value| + 1 <= |col|
    ensures alias.None? ==> r == col
    ensures alias.Some? ==> col == col[..|alias.value| + 1] + r && |r| == |col| - |alias.value| - 1
  {
    if alias.Some? then col[|alias.value| + 1..] else col
  }

  /** An aliased column "alias.name" resolves to "name"; so does any text of the same length before it. */
  lemma ResolveColumnStripsAlias(alias: string, name: string, other: string)
    requires |other| == |alias| + 1
    ensures ResolveColumn(alias + "." + name, Some(alias)) == name
    ensures ResolveColumn(other + name, Some(alias)) == name
  {
    assert (alias + "." + name)[|alias| + 1..] == name;
    assert (other + name)[|alias| + 1..] == name;
  }

  /** The column text of `n` is long enough for the alias to be cut off it (the source throws otherwise). */
  predicate Resolvable(n: Node, alias: Option<string>)
  {
    n.Element? && alias.Some? && ColumnOf(n.attributes).Some? ==>
      |alias.value| + 1 <= |ColumnOf(n.attributes).value|
  }

  predicate AllResolvable(ns: seq<Node>, alias: Option<string>)
  {
    forall n :: n in ns ==> Resolvable(n, alias)
  }

  /**
   * The comment placed in front of an element: the remark of the column its
   * "column" attribute names, when the table has that column and its remark
   * is longer than one character.
   */
  function Note(n: Node, table: Table): (r: Option<string>)
    requires Resolvable(n, table.alias)
    ensures r.Some? ==> n.Element?
  {
    match n
    case Text(_) => None
    case Element(_, attrs, _) =>
      match ColumnOf(attrs)
      case None => None
      case Some(col) =>
        var c := ResolveColumn(col, table.alias);
        if c in table.columns && HasRemark(table.columns[c].remarks) then
          Some("<!-- " + table.columns[c].remarks.value + " -->")
        else None
  }

  /** One child's contribution: text is dropped; an element with a note gets a blank line and the note before it. */
  function Piece(n: Node, table: Table): seq<Node>
    requires Resolvable(n, table.alias)
  {
    if n.Text? then []
    else match Note(n, table)
      case None => [n]
      case Some(t) => [Text(""), Text(t), n]
  }

  /** The children of a result map once the plugin has commented it. */
  function Commented(ns: seq<Node>, table: Table): (r: seq<Node>)
    requires AllResolvable(ns, table.alias)
    ensures AllResolvable(r, table.alias)
    decreases |ns|
  {
    if ns == [] then []
    else
      assert ns[|ns| - 1] in ns;
      assert forall n :: n in ns[..|ns| - 1] ==> n in ns;
      Commented(ns[..|ns| - 1], table) + Piece(ns[|ns| - 1], table)
  }

  /** The element (non-text) children, in order. */
  function ElementsOf(ns: seq<Node>): (r: seq<Node>)
    ensures forall n :: n in r ==> n.Element? && n in ns
    decreases |ns|
  {
    if ns == [] then []
    else
      assert forall n :: n in ns[..|ns| - 1] ==> n in ns;
      ElementsOf(ns[..|ns| - 1]) + (if ns[|ns| - 1].Text? then [] else [ns[|ns| - 1]])
  }

  /** How many children receive a note. */
  function NoteCount(ns: seq<Node>, table: Table): nat
    requires AllResolvable(ns, table.alias)
    decreases |ns|
  {
    if ns == [] then 0
    else
      assert ns[|ns| - 1] in ns;
      assert forall n :: n in ns[..|ns| - 1] ==> n in ns;
      NoteCount(ns[..|ns| - 1], table) + (if Note(ns[|ns| - 1], table).Some? then 1 else 0)
  }

  lemma {:induction false} ElementsOfAppend(a: seq<Node>, b: seq<Node>)
    ensures ElementsOf(a + b) == ElementsOf(a) + ElementsOf(b)
    decreases |b|
  {
    if b == [] {
      assert a + b == a;
    } else {
      var b' := b[..|b| - 1];
      assert (a + b)[..|a + b| - 1] == a + b';
      assert (a + b)[|a + b| - 1] == b[|b| - 1];
      ElementsOfAppend(a, b');
    }
  }

  lemma {:induction false} CommentedAppend(a: seq<Node>, b: seq<Node>, table: Table)
    requires AllResolvable(a, table.alias) && AllResolvable(b, table.alias)
    ensures AllResolvable(a + b, table.alias)
    ensures Commented(a + b, table) == Commented(a, table) + Commented(b, table)
    decreases |b|
  {
    if b == [] {
      assert a + b == a;
    } else {
      var b', n := b[..|b| - 1], b[|b| - 1];
      assert b == b' + [n];
      assert n in b && forall m :: m in b' ==> m in b;
      assert a + b == (a + b') + [n];
      CommentedAppend(a, b', table);
      CommentedSnoc(a + b', n, table);
      CommentedSnoc(b', n, table);
      ConcatAssoc(Commented(a, table), Commented(b', table), Piece(n, table));
    }
  }

  /** One more child appends its piece. */
  lemma CommentedSnoc(a: seq<Node>, n: Node, table: Table)
    requires AllResolvable(a, table.alias) && Resolvable(n, table.alias)
    ensures AllResolvable(a + [n], table.alias)
    ensures Commented(a + [n], table) == Commented(a, table) + Piece(n, table)
  {
    assert (a + [n])[..|a|] == a;
  }

  /** The singleton case of the definitions. */
  lemma OneNode(n: Node, table: Table)
    requires Resolvable(n, table.alias)
    ensures AllResolvable([n], table.alias)
    ensures Commented([n], table) == Piece(n, table)
    ensures ElementsOf([n]) == if n.Text? then [] else [n]
    ensures NoteCount([n], table) == if Note(n, table).Some? then 1 else 0
  {
    assert [n][..0] == [];
  }

  /** A piece holds the same elements as the child it comes from. */
  lemma PieceElements(n: Node, table: Table)
    requires Resolvable(n, table.alias)
    ensures AllResolvable(Piece(n, table), table.alias)
    ensures ElementsOf(Piece(n, table)) == ElementsOf([n])
  {
    OneNode(n, table);
    var p := Piece(n, table);
    if |p| == 3 {
      assert p[..2] == [p[0], p[1]];
      assert p[..2][..1] == [p[0]];
      assert p[..2][..1][..0] == [];
      assert ElementsOf(p[..2][..1]) == [];
      assert ElementsOf(p[..2]) == [];
      assert ElementsOf(p) == [n];
    }
  }

  lemma KeepsElementsStep(ns: seq<Node>, table: Table)
    requires ns != [] && AllResolvable(ns, table.alias)
    requires AllResolvable(ns[..|ns| - 1], table.alias)
    requires ElementsOf(Commented(ns[..|ns| - 1], table)) == ElementsOf(ns[..|ns| - 1])
    ensures ElementsOf(Commented(ns, table)) == ElementsOf(ns)
  {
    var init, last := ns[..|ns| - 1], ns[|ns| - 1];
    assert last in ns;
    PieceElements(last, table);
    ElementsOfAppend(Commented(init, table), Piece(last, table));
  }

  /** No child is lost and none is reordered: the elements of the result are the original elements. */
  lemma {:induction false} CommentedKeepsElements(ns: seq<Node>, table: Table)
    requires AllResolvable(ns, table.alias)
    ensures ElementsOf(Commented(ns, table)) == ElementsOf(ns)
    decreases |ns|
  {
    if ns != [] {
      var init := ns[..|ns| - 1];
      assert forall n :: n in init ==> n in ns;
      CommentedKeepsElements(init, table);
      KeepsElementsStep(ns, table);
    }
  }

  /** Each element stays; each one with a note gains exactly two nodes (the blank line and the note). */
  lemma {:induction false} CommentedLength(ns: seq<Node>, table: Table)
    requires AllResolvable(ns, table.alias)
    ensures |Commented(ns, table)| == |ElementsOf(ns)| + 2 * NoteCount(ns, table)
    decreases |ns|
  {
    if ns != [] {
      var init := ns[..|ns| - 1];
      assert ns[|ns| - 1] in ns;
      assert forall n :: n in init ==> n in ns;
      CommentedLength(init, table);
    }
  }

  /** The text children of the input play no part: they are all removed before the notes are placed. */
  lemma {:induction false} CommentedIgnoresText(ns: seq<Node>, table: Table)
    requires AllResolvable(ns, table.alias)
    ensures AllResolvable(ElementsOf(ns), table.alias)
    ensures Commented(ns, table) == Commented(ElementsOf(ns), table)
    decreases |ns|
  {
    if ns != [] {
      var init, last := ns[..|ns| - 1], ns[|ns| - 1];
      assert last in ns;
      assert forall n :: n in init ==> n in ns;
      CommentedIgnoresText(init, table);
      OneNode(last, table);
      if last.Text? {
        assert ElementsOf(ns) == ElementsOf(init) + [];
        assert ElementsOf(init) + [] == ElementsOf(init);
      } else {
        assert ElementsOf(ns) == ElementsOf(init) + [last];
        CommentedAppend(ElementsOf(init), [last], table);
      }
    }
  }

  /** Commenting a result map twice leaves it as commenting it once. */
  lemma CommentedIdempotent(ns: seq<Node>, table: Table)
    requires AllResolvable(ns, table.alias)
    ensures Commented(Commented(ns, table), table) == Commented(ns, table)
  {
    var r := Commented(ns, table);
    CommentedIgnoresText(r, table);
    CommentedKeepsElements(ns, table);
    CommentedIgnoresText(ns, table);
  }

  /**
   * Every element with a note is immediately preceded by a blank line and
   * then that note; every element without one is first or follows another
   * element.
   */
  predicate NotesPrecede(r: seq<Node>, table: Table)
    requires AllResolvable(r, table.alias)
  {
    forall i {:trigger r[i]} :: 0 <= i < |r| && r[i].Element? ==>
      (Note(r[i], table).Some? ==> 2 <= i && r[i - 2] == Text("") && r[i - 1] == Text(Note(r[i], table).value)) &&
      (Note(r[i], table).None? ==> i == 0 || r[i - 1].Element?)
  }

  /**
   * Every text child is a blank line followed by a note and its element, or
   * a note between the blank line and its element.
   */
  predicate TextIsNote(r: seq<Node>, table: Table)
    requires AllResolvable(r, table.alias)
  {
    forall i {:trigger r[i]} :: 0 <= i < |r| && r[i].Text? ==>
      (r[i] == Text("") && i + 2 < |r| && r[i + 2].Element? &&
       Note(r[i + 2], table).Some? && r[i + 1] == Text(Note(r[i + 2], table).value)) ||
      (1 <= i && i + 1 < |r| && r[i - 1] == Text("") && r[i + 1].Element? &&
       Note(r[i + 1], table).Some? && r[i] == Text(Note(r[i + 1], table).value))
  }

  /** A commented, non-empty result ends with an element. */
  lemma {:induction false} CommentedEndsWithElement(ns: seq<Node>, table: Table)
    requires AllResolvable(ns, table.alias)
    ensures var r := Commented(ns, table); r != [] ==> r[|r| - 1].Element?
    decreases |ns|
  {
    if ns != [] {
      var init, last := ns[..|ns| - 1], ns[|ns| - 1];
      assert last in ns;
      assert forall n :: n in init ==> n in ns;
      CommentedEndsWithElement(init, table);
    }
  }

  lemma {:induction false} CommentedNotesPrecede(ns: seq<Node>, table: Table)
    requires AllResolvable(ns, table.alias)
    ensures NotesPrecede(Commented(ns, table), table)
    decreases |ns|
  {
    if ns != [] {
      var init, last := ns[..|ns| - 1], ns[|ns| - 1];
      assert last in ns;
      assert forall n :: n in init ==> n in ns;
      CommentedNotesPrecede(init, table);
      CommentedEndsWithElement(init, table);
      var c, p := Commented(init, table), Piece(last, table);
      var r := c + p;
      assert r == Commented(ns, table);
      forall i {:trigger r[i]} | 0 <= i < |r| && r[i].Element?
        ensures Note(r[i], table).Some? ==> 2 <= i && r[i - 2] == Text("") && r[i - 1] == Text(Note(r[i], table).value)
        ensures Note(r[i], table).None? ==> i == 0 || r[i - 1].Element?
      {
        if i < |c| {
          assert r[i] == c[i];
          if 1 <= i {
            assert r[i - 1] == c[i - 1];
          }
          if 2 <= i {
            assert r[i - 2] == c[i - 2];
          }
        } else {
          assert r[i] == p[i - |c|];
          if |p| == 1 {
            assert i == |c| && r[i] == last;
            if 1 <= i {
              assert r[i - 1] == c[|c| - 1];
            }
          } else {
            assert p == [Text(""), Text(Note(last, table).value), last];
            assert i == |c| + 2 && r[i] == last;
            assert r[i - 2] == p[0] && r[i - 1] == p[1];
          }
        }
      }
      assert NotesPrecede(r, table);
    }
  }

  lemma {:induction false} CommentedTextIsNote(ns: seq<Node>, table: Table)
    requires AllResolvable(ns, table.alias)
    ensures TextIsNote(Commented(ns, table), table)
    decreases |ns|
  {
    if ns != [] {
      var init, last := ns[..|ns| - 1], ns[|ns| - 1];
      assert last in ns;
      assert forall n :: n in init ==> n in ns;
      CommentedTextIsNote(init, table);
      var c, p := Commented(init, table), Piece(last, table);
      var r := c + p;
      assert r == Commented(ns, table);
      forall i {:trigger r[i]} | 0 <= i < |r| && r[i].Text?
        ensures (r[i] == Text("") && i + 2 < |r| && r[i + 2].Element? &&
                 Note(r[i + 2], table).Some? && r[i + 1] == Text(Note(r[i + 2], table).value)) ||
                (1 <= i && i + 1 < |r| && r[i - 1] == Text("") && r[i + 1].Element? &&
                 Note(r[i + 1], table).Some? && r[i] == Text(Note(r[i + 1], table).value))
      {
        if i < |c| {
          assert r[i] == c[i];
          if c[i] == Text("") && i + 2 < |c| && c[i + 2].Element? &&
             Note(c[i + 2], table).Some? && c[i + 1] == Text(Note(c[i + 2], table).value) {
            assert r[i + 1] == c[i + 1] && r[i + 2] == c[i + 2];
          } else {
            assert 1 <= i && i + 1 < |c|;
            assert r[i - 1] == c[i - 1] && r[i + 1] == c[i + 1];
          }
        } else {
          assert r[i] == p[i - |c|];
          assert p == [Text(""), Text(Note(last, table).value), last];
          assert r[|c|] == p[0] && r[|c| + 1] == p[1] && r[|c| + 2] == p[2];
          assert i == |c| || i == |c| + 1;
        }
      }
    }
  }
}
