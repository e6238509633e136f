/**
 * The nested `Annotations` enum of CommentPlugin: the six Lombok annotations,
 * their lookup by configuration key, the one dependency edge, the option
 * quoting rule and the rendering of an annotation with its options.
 */
module Lombok {
  import opened Wrappers
  import opened Strings

  /** The six variants, in declaration order. */
  datatype Annotation = Data | Builder | AllArgsConstructor | NoArgsConstructor | Accessors | ToString
  {
    /** The configuration key that enables the annotation (see ParamNameIsWord). */
    function ParamName(): (r: string)
      ensures r != []
    {
      match this
      case Data => "data"
      case Builder => "builder"
      case AllArgsConstructor => "allArgsConstructor"
      case NoArgsConstructor => "noArgsConstructor"
      case Accessors => "accessors"
      case ToString => "toString"
    }

    /** The annotation text without options: `@` and the annotation's simple name. */
    function Name(): (r: string)
      ensures |r| > 1 && r[0] == '@'
    {
      match this
      case Data => "@Data"
      case Builder => "@Builder"
      case AllArgsConstructor => "@AllArgsConstructor"
      case NoArgsConstructor => "@NoArgsConstructor"
      case Accessors => "@Accessors"
      case ToString => "@ToString"
    }

    /** The fully qualified name of the annotation type that is imported, a class of the lombok package. */
    function ClassName(): (r: string)
      ensures StartsWith(r, "lombok.")
    {
      match this
      case Data => "lombok.Data"
      case Builder => "lombok.Builder"
      case AllArgsConstructor => "lombok.AllArgsConstructor"
      case NoArgsConstructor => "lombok.NoArgsConstructor"
      case Accessors => "lombok.experimental.Accessors"
      case ToString => "lombok.ToString"
    }
  }

  /** Every key is a non-empty run of word characters, so it has no dot. */
  lemma ParamNameIsWord(a: Annotation)
    ensures forall i :: 0 <= i < |a.ParamName()| ==> IsWordChar(a.ParamName()[i])
    ensures '.' !in a.ParamName()
  {
    match a
    case Data =>
    case Builder =>
    case AllArgsConstructor =>
    case NoArgsConstructor =>
    case Accessors =>
    case ToString =>
  }

  /** Annotations.values(). */
  const Values: seq<Annotation> := [Data, Builder, AllArgsConstructor, NoArgsConstructor, Accessors, ToString]

  /** The first candidate whose key equals `paramName` ignoring case. */
  function LookUp(candidates: seq<Annotation>, paramName: string): (r: Option<Annotation>)
    ensures r.Some? ==> r.value in candidates && EqualsIgnoreCase(paramName, r.value.ParamName())
    ensures r.None? ==> forall a :: a in candidates ==> !EqualsIgnoreCase(paramName, a.ParamName())
  {
    if candidates == [] then None
    else if EqualsIgnoreCase(paramName, candidates[0].ParamName()) then Some(candidates[0])
    else LookUp(candidates[1..], paramName)
  }

  /**
   * Annotations.getValueOf: the variant whose configuration key equals
   * `paramName` ignoring case, or None (Java's null) when there is none.
   * The six keys have six different lengths, so at most one variant matches.
   */
  function GetValueOf(paramName: string): (r: Option<Annotation>)
    ensures forall a: Annotation :: r == Some(a) <==> EqualsIgnoreCase(paramName, a.ParamName())
  {
    GetValueOfUnique(paramName);
    LookUp(Values, paramName)
  }

  /**
   * Java also folds the dotless small i onto 'i', so "bu\U{0131}lder" names
   * the builder annotation.
   */
  lemma GetValueOfDotlessI()
    ensures GetValueOf("bu\U{0131}lder") == Some(Builder)
  {
    assert EqualsIgnoreCase("bu\U{0131}lder", Builder.ParamName()) by {
      assert Fold('\U{0131}') == 'i';
    }
  }

  /** The six configuration keys have six different lengths. */
  lemma ParamNamesDiffer(a: Annotation, b: Annotation)
    requires a != b
    ensures |a.ParamName()| != |b.ParamName()|
  {
  }

  lemma GetValueOfUnique(paramName: string)
    ensures forall a: Annotation :: LookUp(Values, paramName) == Some(a) <==> EqualsIgnoreCase(paramName, a.ParamName())
  {
    ValuesComplete();
    var r := LookUp(Values, paramName);
    forall a: Annotation ensures r == Some(a) <==> EqualsIgnoreCase(paramName, a.ParamName()) {
      if EqualsIgnoreCase(paramName, a.ParamName()) {
        assert r.Some?;
        if r.value != a {
          ParamNamesDiffer(r.value, a);
        }
      }
    }
  }

  /** Every variant is listed in Values. */
  lemma ValuesComplete()
    ensures forall a: Annotation :: a in Values
  {
    forall a: Annotation ensures a in Values {
      match a
      case Data => assert Values[0] == a;
      case Builder => assert Values[1] == a;
      case AllArgsConstructor => assert Values[2] == a;
      case NoArgsConstructor => assert Values[3] == a;
      case Accessors => assert Values[4] == a;
      case ToString => assert Values[5] == a;
    }
  }

  /** Annotations.getDependencies: only the all-args constructor needs another annotation. */
  function Dependencies(a: Annotation): (r: seq<Annotation>)
    ensures |r| <= 1
    ensures forall b :: b in r <==> a == AllArgsConstructor && b == NoArgsConstructor
  {
    if a == AllArgsConstructor then [NoArgsConstructor] else []
  }

  /**
   * The regular-expression class `\w` of java.util.regex: `[a-zA-Z_0-9]`.
   * A word character is ASCII and is none of the delimiters that the quoting,
   * the value braces, the option text and the option list use.
   */
  predicate IsWordChar(c: char): (r: bool)
    ensures r ==> (c as int) < 128 && c !in "\"{},=. "
  {
    'a' <= c <= 'z' || 'A' <= c <= 'Z' || '0' <= c <= '9' || c == '_'
  }

  /** The length of the longest prefix of `s` made of word characters. */
  function WordRun(s: string): (n: nat)
    ensures n <= |s|
    ensures forall i :: 0 <= i < n ==> IsWordChar(s[i])
    ensures n < |s| ==> !IsWordChar(s[n])
  {
    if s != [] && IsWordChar(s[0]) then 1 + WordRun(s[1..]) else 0
  }

  /**
   * `value.replaceAll("[\\w]+", "\"$0\"")`: every maximal run of word
   * characters wrapped in double quotes, every other character kept.
   */
  function QuoteRuns(s: string): (r: string)
    ensures |s| <= |r|
    decreases |s|
  {
    if s == [] then ""
    else if IsWordChar(s[0]) then
      var n := WordRun(s);
      "\"" + s[..n] + "\"" + QuoteRuns(s[n..])
    else [s[0]] + QuoteRuns(s[1..])
  }

  /**
   * A reference for the regular-expression replacement, one character at a
   * time: `inRun` says whether a quote has been opened and not yet closed.
   */
  function Scan(s: string, inRun: bool): string
  {
    if s == [] then (if inRun then "\"" else "")
    else if IsWordChar(s[0]) then (if inRun then "" else "\"") + [s[0]] + Scan(s[1..], true)
    else (if inRun then "\"" else "") + [s[0]] + Scan(s[1..], false)
  }

  /** A character that may stand next to a word character in quoted output. */
  predicate Edge(c: char)
  {
    IsWordChar(c) || c == '"'
  }

  /**
   * Every word character of `r` has a neighbour on both sides, and each
   * neighbour is a word character or a double quote; so every maximal run
   * of word characters is enclosed in quotes.
   */
  predicate Guarded(r: string)
  {
    forall i :: 0 <= i < |r| && IsWordChar(r[i]) ==> 0 < i < |r| - 1 && Edge(r[i - 1]) && Edge(r[i + 1])
  }

  lemma GuardedConcat(a: string, b: string)
    requires Guarded(a) && Guarded(b)
    ensures Guarded(a + b)
  {
    forall i | 0 <= i < |a + b| && IsWordChar((a + b)[i])
      ensures 0 < i < |a + b| - 1 && Edge((a + b)[i - 1]) && Edge((a + b)[i + 1])
    {
      if i < |a| {
        assert IsWordChar(a[i]);
      } else {
        assert IsWordChar(b[i - |a|]);
      }
    }
  }

  /** The quoted output is guarded: no word character is left outside quotes. */
  lemma {:induction false} QuoteRunsGuarded(s: string)
    ensures Guarded(QuoteRuns(s))
    decreases |s|
  {
    if s == [] {
    } else if IsWordChar(s[0]) {
      var n := WordRun(s);
      var q := "\"" + s[..n] + "\"";
      assert Guarded(q) by {
        forall i | 0 <= i < |q| && IsWordChar(q[i])
          ensures 0 < i < |q| - 1 && Edge(q[i - 1]) && Edge(q[i + 1])
        {
          assert q[0] == '"' && q[|q| - 1] == '"';
          assert forall k :: 0 < k < |q| - 1 ==> q[k] == s[k - 1];
        }
      }
      QuoteRunsGuarded(s[n..]);
      GuardedConcat(q, QuoteRuns(s[n..]));
    } else {
      assert Guarded([s[0]]);
      QuoteRunsGuarded(s[1..]);
      GuardedConcat([s[0]], QuoteRuns(s[1..]));
    }
  }

  /** Inside an open run, the scan copies the run, closes the quote and goes on outside. */
  lemma {:induction false} ScanInRun(s: string)
    ensures Scan(s, true) == s[..WordRun(s)] + "\"" + Scan(s[WordRun(s)..], false)
  {
    if s != [] && IsWordChar(s[0]) {
      var n := WordRun(s);
      ScanInRun(s[1..]);
      assert s[1..][..n - 1] == s[1..n];
      assert s[1..][n - 1..] == s[n..];
      assert [s[0]] + s[1..n] == s[..n];
    }
  }

  /** Outside a run, the scan opens a quote at a word character, copies the run and closes it. */
  lemma ScanOpensRun(s: string)
    requires s != [] && IsWordChar(s[0])
    ensures Scan(s, false) == "\"" + s[..WordRun(s)] + "\"" + Scan(s[WordRun(s)..], false)
  {
    var n := WordRun(s);
    ScanInRun(s[1..]);
    assert WordRun(s[1..]) == n - 1;
    assert s[1..][..n - 1] == s[1..n];
    assert s[1..][n - 1..] == s[n..];
    assert [s[0]] + s[1..n] == s[..n];
    var q, rest := "\"", Scan(s[n..], false);
    ConcatAssoc(q + [s[0]], s[1..n] + q, rest);
    ConcatAssoc(q + [s[0]], s[1..n], q);
    ConcatAssoc(q, [s[0]], s[1..n]);
  }

  lemma QuoteRunsIsScanAtWord(s: string)
    requires s != [] && IsWordChar(s[0])
    requires QuoteRuns(s[WordRun(s)..]) == Scan(s[WordRun(s)..], false)
    ensures QuoteRuns(s) == Scan(s, false)
  {
    ScanOpensRun(s);
  }

  lemma QuoteRunsIsScanAtOther(s: string)
    requires s != [] && !IsWordChar(s[0])
    requires QuoteRuns(s[1..]) == Scan(s[1..], false)
    ensures QuoteRuns(s) == Scan(s, false)
  {
  }

  /** The run-by-run replacement agrees with the character-by-character reference. */
  lemma {:induction false} QuoteRunsIsScan(s: string)
    ensures QuoteRuns(s) == Scan(s, false)
    decreases |s|
  {
    if s != [] && IsWordChar(s[0]) {
      QuoteRunsIsScan(s[WordRun(s)..]);
      QuoteRunsIsScanAtWord(s);
    } else if s != [] {
      QuoteRunsIsScan(s[1..]);
      QuoteRunsIsScanAtOther(s);
    }
  }

  /** Deleting the quotes around a word without quotes gives back the word. */
  lemma UnquoteWord(w: string)
    requires '"' !in w
    ensures Without("\"" + w + "\"", '"') == w
  {
    WithoutAbsent(w, '"');
    WithoutAppend("\"" + w, "\"", '"');
    WithoutAppend("\"", w, '"');
  }

  /** The replacement only inserts double quotes: deleting them gives back the input's characters. */
  lemma {:induction false} QuoteRunsOnlyAddsQuotes(s: string)
    ensures Without(QuoteRuns(s), '"') == Without(s, '"')
    decreases |s|
  {
    if s == [] {
    } else if IsWordChar(s[0]) {
      var n := WordRun(s);
      var w := s[..n];
      assert '"' !in w;
      UnquoteWord(w);
      WithoutAbsent(w, '"');
      QuoteRunsOnlyAddsQuotes(s[n..]);
      WithoutAppend("\"" + w + "\"", QuoteRuns(s[n..]), '"');
      WithoutAppend(w, s[n..], '"');
      assert s == w + s[n..];
    } else {
      QuoteRunsOnlyAddsQuotes(s[1..]);
      WithoutAppend([s[0]], QuoteRuns(s[1..]), '"');
      WithoutAppend([s[0]], s[1..], '"');
      assert s == [s[0]] + s[1..];
    }
  }

  /** A value without word characters is not changed by the replacement. */
  lemma {:induction false} QuoteRunsNoWords(s: string)
    requires forall i :: 0 <= i < |s| ==> !IsWordChar(s[i])
    ensures QuoteRuns(s) == s
  {
    if s != [] {
      QuoteRunsNoWords(s[1..]);
    }
  }

  /**
   * Annotations.quote: the literal "true" or "false" is returned unchanged
   * (case-sensitively); any other value gets its word runs quoted.
   */
  function Quote(value: string): (r: string)
    ensures value == "true" || value == "false" ==> r == value
    ensures value != "true" && value != "false" ==>
              r == Scan(value, false) && Guarded(r) && Without(r, '"') == Without(value, '"')
  {
    if value == "true" || value == "false" then value
    else
      QuoteRunsIsScan(value);
      QuoteRunsGuarded(value);
      QuoteRunsOnlyAddsQuotes(value);
      QuoteRuns(value)
  }

  /** The option name of a key: the text after its first '.' (the whole key when it has none). */
  function KeyPart(key: string): (r: string)
    ensures '.' !in key ==> r == key
    ensures '.' in key ==> |r| < |key|
  {
    key[IndexOf(key, '.') + 1..]
  }

  /** With a dot in the key, the option name is what follows the first dot. */
  lemma KeyPartAfterFirstDot(key: string)
    requires '.' in key
    ensures var n := |key| - |KeyPart(key)| - 1;
      key[n] == '.' && '.' !in key[..n] && key == key[..n] + "." + KeyPart(key)
  {
    var n := |key| - |KeyPart(key)| - 1;
    assert n == IndexOf(key, '.');
    assert key == key[..n] + [key[n]] + key[n + 1..];
  }

  /** The value as quoted: wrapped in braces, as an array literal, when it holds a comma. */
  function ValuePart(value: string): (r: string)
    ensures ',' !in value ==> r == value
    ensures ',' in value ==> |r| == |value| + 2 && r[0] == '{' && r[|r| - 1] == '}' && r[1..|r| - 1] == value
  {
    if ',' in value then "{" + value + "}" else value
  }

  /** The string Annotations.appendOptions adds to the option list: `option=quoted value`. */
  function OptionText(key: string, value: string): (r: string)
    ensures StartsWith(r, KeyPart(key) + "=")
  {
    KeyPart(key) + "=" + Quote(ValuePart(value))
  }

  /** For a key `name.option` whose name has no dot, the option name is exactly `option`. */
  lemma OptionTextOf(name: string, option: string, value: string)
    requires '.' !in name
    ensures OptionText(name + "." + option, value) == option + "=" + Quote(ValuePart(value))
  {
    var key := name + "." + option;
    assert key[|name|] == '.';
    var k := IndexOf(key, '.');
    assert key[..|name|] == name;
    assert k == |name|;
    assert key[k + 1..] == option;
  }

  /** A run of word characters followed by a non-word character (or nothing) is quoted as a whole. */
  lemma {:induction false} QuoteRunsWord(w: string, rest: string)
    requires w != [] && forall i :: 0 <= i < |w| ==> IsWordChar(w[i])
    requires rest != [] ==> !IsWordChar(rest[0])
    ensures QuoteRuns(w + rest) == "\"" + w + "\"" + QuoteRuns(rest)
  {
    WordRunOf(w, rest);
    var s := w + rest;
    assert s[..|w|] == w && s[|w|..] == rest;
  }

  lemma {:induction false} WordRunOf(w: string, rest: string)
    requires forall i :: 0 <= i < |w| ==> IsWordChar(w[i])
    requires rest != [] ==> !IsWordChar(rest[0])
    ensures WordRun(w + rest) == |w|
    decreases |w|
  {
    if w != [] {
      assert (w + rest)[1..] == w[1..] + rest;
      WordRunOf(w[1..], rest);
    } else {
      assert w + rest == rest;
    }
  }

  lemma QuoteRunsOther(c: char, rest: string)
    requires !IsWordChar(c)
    ensures QuoteRuns([c] + rest) == [c] + QuoteRuns(rest)
  {
    assert ([c] + rest)[1..] == rest;
  }

  lemma {:induction false} QuoteRunsPair(a: string, b: string)
    requires a != [] && forall i :: 0 <= i < |a| ==> IsWordChar(a[i])
    requires b != [] && forall i :: 0 <= i < |b| ==> IsWordChar(b[i])
    ensures QuoteRuns("{" + (a + ("," + (b + "}")))) == "{" + (("\"" + a + "\"") + ("," + (("\"" + b + "\"") + "}")))
  {
    assert QuoteRuns("}") == "}" by { QuoteRunsOther('}', ""); }
    QuoteRunsWord(b, "}");
    QuoteRunsOther(',', b + "}");
    QuoteRunsWord(a, "," + (b + "}"));
    QuoteRunsOther('{', a + ("," + (b + "}")));
  }

  /** A bracketed pair `open x sep y close`, grouped from the left or from the right. */
  lemma PairGrouping<T>(open: seq<T>, x: seq<T>, sep: seq<T>, y: seq<T>, close: seq<T>)
    ensures open + (x + sep + y) + close == open + (x + (sep + (y + close)))
    ensures open + (x + (sep + (y + close))) == open + x + sep + y + close
  {
  }

  /** A comma-separated pair of words, such as "x,y", becomes the quoted array literal {"x","y"}. */
  lemma QuoteArrayOfTwo(a: string, b: string)
    requires a != [] && forall i :: 0 <= i < |a| ==> IsWordChar(a[i])
    requires b != [] && forall i :: 0 <= i < |b| ==> IsWordChar(b[i])
    ensures Quote(ValuePart(a + "," + b)) == "{" + ("\"" + a + "\"") + "," + ("\"" + b + "\"") + "}"
  {
    var v := a + "," + b;
    assert v[|a|] == ',';
    var braced := "{" + v + "}";
    assert ValuePart(v) == braced;
    assert braced[0] == '{' && "true"[0] == 't' && "false"[0] == 'f';
    PairGrouping("{", a, ",", b, "}");
    QuoteRunsPair(a, b);
    PairGrouping("{", "\"" + a + "\"", ",", "\"" + b + "\"", "}");
  }

  /** A boolean literal stays bare; a plain word is quoted. */
  lemma QuoteScalarExamples()
    ensures Quote(ValuePart("true")) == "true"
    ensures Quote(ValuePart("id")) == "\"id\""
  {
    assert ValuePart("true") == "true";
    assert ValuePart("id") == "id";
    assert Scan("", true) == "\"";
    assert Scan("d", true) == "d\"";
  }

  /** Annotations.asAnnotation as a value: the name, then the options in order, comma-joined in parentheses. */
  function Annotated(name: string, options: seq<string>): (r: string)
    ensures StartsWith(r, name)
    ensures options == [] <==> |r| == |name|
  {
    if options == [] then name else name + "(" + Join(options, ", ") + ")"
  }

  /** Annotations.asAnnotation: builds the text with a StringBuilder loop. */
  method AsAnnotation(name: string, options: seq<string>) returns (s: string)
    ensures s == Annotated(name, options)
    ensures options == [] ==> s == name
    ensures options != [] ==> s == name + "(" + Join(options, ", ") + ")"
  {
    if options == [] {
      return name;
    }
    var sb := name + "(";
    var first := true;
    for i := 0 to |options|
      invariant first <==> i == 0
      invariant i > 0 ==> sb == name + "(" + Join(options[..i], ", ")
      invariant i == 0 ==> sb == name + "("
    {
      if first {
        first := false;
      } else {
        sb := sb + ", ";
      }
      sb := sb + options[i];
      if i > 0 {
        JoinSnoc(options[..i], options[i], ", ");
      }
      assert options[..i + 1] == options[..i] + [options[i]];
    }
    assert options[..|options|] == options;
    s := sb + ")";
  }
}
