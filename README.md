# CommentPlugin, modelled in Dafny

This project models `CommentPlugin`, a MyBatis Generator plugin. The plugin:

- replaces the javadoc of generated model classes and of their fields with
  table and column information;
- puts Lombok annotations, with their configured options, on the model
  classes;
- places each column's remark as an XML comment in front of the matching
  result-map entry;
- drops the `parameterType` attribute from insert and update statements;
- appends a banner to every mapping document;
- puts MyBatis's `@Mapper` annotation on the generated mapper interface.

The modules follow the parts of the class:

- `Strings`: the few `java.lang.String` operations the plugin uses.
  - `equalsIgnoreCase`, `Boolean.parseBoolean`, `startsWith`, `indexOf`, joining.
  - Deleting every occurrence of a character from a string.
- `Lombok`: the nested `Annotations` enum.
  - The six variants, their keys, names and imported classes.
  - `getValueOf`, `getDependencies`, the quoting rule, the option text of `appendOptions`, and `asAnnotation`.
- `Configuration`: what `setProperties` computes, as functions of the property list.
  - The two nested loops produce a sequence of events, one per option property of a selected annotation.
  - The insertion-ordered annotation set and the per-annotation option lists are folds over those events.
- `Dom`: the host generator's objects that the plugin reads or edits.
  - XML elements, model classes, fields, mapper interfaces and documents are classes whose fields are edited in place.
  - The children of an XML element (`Node`: a text node or a nested element), attributes, tables and columns are values.
- `ResultMap`: the reference definitions of `removeAttribute` and `commentResultMap`, and their properties.
- `Comments`: the class and field javadoc texts and the document footer.
- `Plugin`: the class `CommentPlugin`.
  - Its fields are the annotation set and the option lists.
  - Every hook is a method, proved against the definitions above.

The imperative parts of the source stay imperative: the loops are `while`/`for` loops with invariants, and the edited objects are classes with `modifies` frames.

## Model

| member | source | states |
|---|---|---|
| Strings.Fold | src/main/java/com/chrm/mybatis/generator/plugins/CommentPlugin.java:301 | the folding of `CASE_INSENSITIVE_ORDER` and `equalsIgnoreCase`: an ASCII capital becomes its small letter, and a character that changes at all becomes a small ASCII letter (the dotted and dotless i, the long s and the Kelvin sign fold as in Java) |
| Strings.EqualsIgnoreCase | src/main/java/com/chrm/mybatis/generator/plugins/CommentPlugin.java:164 | equal strings are equal ignoring case, and strings equal ignoring case have the same length |
| Strings.ParseBoolean | src/main/java/com/chrm/mybatis/generator/plugins/CommentPlugin.java:104 | `"true"` parses as true, and every string that parses as true has four characters |
| Strings.StartsWith | src/main/java/com/chrm/mybatis/generator/plugins/CommentPlugin.java:114 | a string is at least as long as any prefix it starts with, and every string starts with itself |
| Strings.IndexOf | src/main/java/com/chrm/mybatis/generator/plugins/CommentPlugin.java:324 | the result is -1 exactly when the character is absent; otherwise it is a position holding the character, with no occurrence before it |
| Lombok.LookUp | src/main/java/com/chrm/mybatis/generator/plugins/CommentPlugin.java:299-305 | the recursive search over the candidates returns a candidate whose key equals the name ignoring case; it returns none only when no candidate's key matches |
| Lombok.GetValueOf | src/main/java/com/chrm/mybatis/generator/plugins/CommentPlugin.java:299-305 | `getValueOf` returns variant `a` exactly when the name equals `a`'s key ignoring case; it returns none (Java's null) when no key matches |
| Lombok.GetValueOfDotlessI | src/main/java/com/chrm/mybatis/generator/plugins/CommentPlugin.java:301 | `buılder`, spelt with a dotless i, names Builder, because Java's case folding maps the dotless i onto `i` |
| Lombok.ParamNamesDiffer | src/main/java/com/chrm/mybatis/generator/plugins/CommentPlugin.java:278-283 | the six keys have six different lengths, so at most one variant matches a name |
| Lombok.ValuesComplete | src/main/java/com/chrm/mybatis/generator/plugins/CommentPlugin.java:277-283 | `values()`, the constant `Lombok.Values`, lists every variant |
| Lombok.Annotation.ParamName | src/main/java/com/chrm/mybatis/generator/plugins/CommentPlugin.java:277-283 | each variant's configuration key, a non-empty text |
| Lombok.ParamNameIsWord | src/main/java/com/chrm/mybatis/generator/plugins/CommentPlugin.java:277-283 | every key is made of word characters and has no dot, so it passes the dot test of `setProperties` |
| Lombok.Annotation.Name | src/main/java/com/chrm/mybatis/generator/plugins/CommentPlugin.java:277-283 | each variant's annotation text is `@` followed by a non-empty name |
| Lombok.Annotation.ClassName | src/main/java/com/chrm/mybatis/generator/plugins/CommentPlugin.java:277-283 | every imported annotation type is a class of the `lombok` package |
| Lombok.IsWordChar | src/main/java/com/chrm/mybatis/generator/plugins/CommentPlugin.java:320 | the class `\w` of the replacement's pattern; a word character is ASCII and is none of the quote, the braces, the comma, `=`, the dot or the space |
| Lombok.Dependencies | src/main/java/com/chrm/mybatis/generator/plugins/CommentPlugin.java:307-312 | there is at most one dependency; the no-args constructor is the dependency of the all-args constructor, and no other annotation has one |
| Lombok.QuoteRuns | src/main/java/com/chrm/mybatis/generator/plugins/CommentPlugin.java:320 | the replacement never shortens the value |
| Lombok.QuoteRunsIsScan | src/main/java/com/chrm/mybatis/generator/plugins/CommentPlugin.java:320 | the run-by-run model of `replaceAll("[\\w]+", "\"$0\"")` agrees with a character-by-character reference scan |
| Lombok.QuoteRunsGuarded | src/main/java/com/chrm/mybatis/generator/plugins/CommentPlugin.java:320 | after the replacement, every word character stands between word characters or double quotes; no word lies outside quotes |
| Lombok.QuoteRunsOnlyAddsQuotes | src/main/java/com/chrm/mybatis/generator/plugins/CommentPlugin.java:320 | the replacement only inserts double quotes: deleting every quote from input and output gives the same string |
| Lombok.QuoteRunsNoWords | src/main/java/com/chrm/mybatis/generator/plugins/CommentPlugin.java:320 | a value without word characters is left unchanged |
| Lombok.Quote | src/main/java/com/chrm/mybatis/generator/plugins/CommentPlugin.java:316-321 | `"true"` and `"false"` are returned unchanged, case-sensitively; any other value is the reference scan, has its words guarded, and differs from the input only by quotes |
| Lombok.QuoteRunsWord | src/main/java/com/chrm/mybatis/generator/plugins/CommentPlugin.java:320 | one maximal run of word characters is wrapped in quotes as a whole |
| Lombok.QuoteArrayOfTwo | src/main/java/com/chrm/mybatis/generator/plugins/CommentPlugin.java:325-326 | a two-word comma list `a,b` is quoted as the array literal `{"a","b"}` |
| Lombok.QuoteScalarExamples | src/main/java/com/chrm/mybatis/generator/plugins/CommentPlugin.java:316-321 | `true` stays bare; the single word `id` becomes `"id"` |
| Lombok.KeyPart | src/main/java/com/chrm/mybatis/generator/plugins/CommentPlugin.java:324 | a key without a dot is kept whole (`indexOf` gives -1, so `substring(0)`); a key with a dot loses at least the dot |
| Lombok.KeyPartAfterFirstDot | src/main/java/com/chrm/mybatis/generator/plugins/CommentPlugin.java:324 | for a key with a dot, the key part is what follows the first dot: the key is a dot-free head, the dot, then the key part |
| Lombok.ValuePart | src/main/java/com/chrm/mybatis/generator/plugins/CommentPlugin.java:325 | a value without a comma is kept; a value with a comma is wrapped in braces and otherwise unchanged |
| Lombok.OptionText | src/main/java/com/chrm/mybatis/generator/plugins/CommentPlugin.java:326 | the option string starts with the key part followed by `=` |
| Lombok.OptionTextOf | src/main/java/com/chrm/mybatis/generator/plugins/CommentPlugin.java:323-327 | for a key `name.option` with no dot in `name`, the appended option string is `option=` followed by the quoted value (braced when it holds a comma) |
| Strings.Join | src/main/java/com/chrm/mybatis/generator/plugins/CommentPlugin.java:336-345 | a non-empty join starts with its first part |
| Lombok.Annotated | src/main/java/com/chrm/mybatis/generator/plugins/CommentPlugin.java:329-347 | the annotation text starts with the annotation's name, and it is exactly the name when there are no options |
| Lombok.AsAnnotation | src/main/java/com/chrm/mybatis/generator/plugins/CommentPlugin.java:329-347 | without options, the result is the bare name; otherwise it is the name, then the options in order, joined by `, ` inside parentheses |
| Configuration.Add | src/main/java/com/chrm/mybatis/generator/plugins/CommentPlugin.java:96 | `LinkedHashSet.add`: the annotation is a member afterwards, and the set grows by at most one |
| Configuration.AddAll | src/main/java/com/chrm/mybatis/generator/plugins/CommentPlugin.java:121 | `addAll` grows the set by at most the number of additions |
| Configuration.Enable | src/main/java/com/chrm/mybatis/generator/plugins/CommentPlugin.java:119-121 | one pass of the inner loop grows the set by at most two: the annotation and its one possible dependency |
| Configuration.Enabled | src/main/java/com/chrm/mybatis/generator/plugins/CommentPlugin.java:113-122 | the events only grow the set, by at most two annotations per event |
| Configuration.OptionsOf | src/main/java/com/chrm/mybatis/generator/plugins/CommentPlugin.java:119 | the events append at most one option each to a given annotation's list |
| Configuration.Selected | src/main/java/com/chrm/mybatis/generator/plugins/CommentPlugin.java:99-111 | a key selects an annotation exactly when it has no dot, its value parses as true, and it equals that annotation's key ignoring case |
| Configuration.Matches | src/main/java/com/chrm/mybatis/generator/plugins/CommentPlugin.java:113-117 | the inner loop yields at most one event per property |
| Configuration.Events | src/main/java/com/chrm/mybatis/generator/plugins/CommentPlugin.java:98-122 | the outer loop yields at most one event per pair of a key and a property |
| Configuration.Configured | src/main/java/com/chrm/mybatis/generator/plugins/CommentPlugin.java:96-122 | Data is always in the resulting set, and the set never shrinks |
| Configuration.AddFacts | src/main/java/com/chrm/mybatis/generator/plugins/CommentPlugin.java:96 | `LinkedHashSet.add`: the members are the old members plus the new one; the old order is a prefix; no duplicate is introduced |
| Configuration.AddAllFacts | src/main/java/com/chrm/mybatis/generator/plugins/CommentPlugin.java:121 | `addAll`: the same three facts, for a list of additions |
| Configuration.EnableFacts | src/main/java/com/chrm/mybatis/generator/plugins/CommentPlugin.java:120-121 | enabling an annotation adds exactly it and its dependencies, keeps the old order as a prefix, and adds no duplicate |
| Configuration.EnableKeepsDependencyOrder | src/main/java/com/chrm/mybatis/generator/plugins/CommentPlugin.java:120-121 | on a duplicate-free set, enabling keeps "the no-args constructor comes right after the all-args one or somewhere before it" |
| Configuration.EnabledInvariant | src/main/java/com/chrm/mybatis/generator/plugins/CommentPlugin.java:113-122 | any run of the loops only appends: the starting set stays a prefix, it stays duplicate-free, and the dependency order is kept |
| Configuration.EnabledMembers | src/main/java/com/chrm/mybatis/generator/plugins/CommentPlugin.java:113-122 | an annotation is in the set exactly when it was there at the start, or some event adds it or needs it |
| Configuration.MatchesMembers | src/main/java/com/chrm/mybatis/generator/plugins/CommentPlugin.java:113-119 | the inner loop yields an event exactly for each property whose name starts, case-sensitively, with the prefix |
| Configuration.EventsMembers | src/main/java/com/chrm/mybatis/generator/plugins/CommentPlugin.java:98-122 | the outer loop yields an event exactly for a selecting key paired with a property named `key.`something |
| Configuration.OptionsOfMembers | src/main/java/com/chrm/mybatis/generator/plugins/CommentPlugin.java:119 | the options collected for `a` are the option strings of the events for `a` |
| Configuration.EventFor | src/main/java/com/chrm/mybatis/generator/plugins/CommentPlugin.java:98-122 | some event is for `a` exactly when the properties enable `a`: a dot-free key, a value parsing as true, a name matching `a`'s key ignoring case, and an option `key.`something |
| Configuration.FreshMember | src/main/java/com/chrm/mybatis/generator/plugins/CommentPlugin.java:96-122 | from a fresh plugin, an annotation other than Data is in the set exactly when the properties enable it, or it is needed by an enabled one |
| Configuration.ConfiguredFromFresh | src/main/java/com/chrm/mybatis/generator/plugins/CommentPlugin.java:96-122 | from a fresh plugin, Data is present and first, no annotation appears twice, and the dependency order holds; any other annotation is present exactly when enabled; the no-args constructor also when the all-args one is enabled |
| Configuration.ConfiguredOptions | src/main/java/com/chrm/mybatis/generator/plugins/CommentPlugin.java:113-119 | an option string is collected for `a` exactly when it is the option text of a property `key.`something under a key selecting `a` |
| Configuration.SelectedOptionText | src/main/java/com/chrm/mybatis/generator/plugins/CommentPlugin.java:323-327 | for such a property, the collected string is the part after `key.`, then `=`, then the quoted value |
| Configuration.KeyWithoutOptionsAddsNothing | src/main/java/com/chrm/mybatis/generator/plugins/CommentPlugin.java:113-122 | `builder=true` with no `builder.` option leaves the set as `[Data]` |
| Configuration.EnabledAppend | src/main/java/com/chrm/mybatis/generator/plugins/CommentPlugin.java:113-122 | two batches of events enable what the first batch enables, then what the second does |
| Configuration.OptionsOfAppend | src/main/java/com/chrm/mybatis/generator/plugins/CommentPlugin.java:119 | two batches of events collect the first batch's options, then the second's |
| ResultMap.FindAttribute | src/main/java/com/chrm/mybatis/generator/plugins/CommentPlugin.java:241-250 | the position found is the first attribute whose name equals the given name ignoring case; none exactly when no attribute matches |
| ResultMap.RemoveFirst | src/main/java/com/chrm/mybatis/generator/plugins/CommentPlugin.java:239-254 | removal takes out at most one attribute |
| ResultMap.RemoveFirstAt | src/main/java/com/chrm/mybatis/generator/plugins/CommentPlugin.java:239-254 | without a match the list is unchanged; otherwise exactly the first match is removed, and everything before and after it is kept in order |
| ResultMap.RemoveFirstOnlyFirst | src/main/java/com/chrm/mybatis/generator/plugins/CommentPlugin.java:250-252 | of two matching attributes, only the first is removed, whatever the case of its name |
| ResultMap.ColumnOf | src/main/java/com/chrm/mybatis/generator/plugins/CommentPlugin.java:159-168 | no column is found only when no attribute is named `column` ignoring case |
| ResultMap.ColumnOfFirst | src/main/java/com/chrm/mybatis/generator/plugins/CommentPlugin.java:159-168 | the column is the value of the first attribute named `column` ignoring case, and is absent exactly when there is no such attribute |
| ResultMap.ResolveColumn | src/main/java/com/chrm/mybatis/generator/plugins/CommentPlugin.java:141-173 | without an alias the column is kept; with one, it loses exactly its first `alias length + 1` characters |
| ResultMap.ResolveColumnStripsAlias | src/main/java/com/chrm/mybatis/generator/plugins/CommentPlugin.java:171-173 | `alias.name` resolves to `name`; a prefix of the same length that is not the alias is cut off too, because only the length is used |
| ResultMap.Note | src/main/java/com/chrm/mybatis/generator/plugins/CommentPlugin.java:153-184 | only an XML element can receive a note |
| ResultMap.Commented | src/main/java/com/chrm/mybatis/generator/plugins/CommentPlugin.java:138-207 | the commented children still meet the alias-length condition |
| ResultMap.ElementsOf | src/main/java/com/chrm/mybatis/generator/plugins/CommentPlugin.java:151-155 | the kept children are XML elements taken from the input |
| ResultMap.CommentedKeepsElements | src/main/java/com/chrm/mybatis/generator/plugins/CommentPlugin.java:138-207 | the XML elements of the result are the input's XML elements, none lost and none reordered |
| ResultMap.CommentedLength | src/main/java/com/chrm/mybatis/generator/plugins/CommentPlugin.java:190-202 | the result's length is the number of XML elements plus twice the number of elements with a note |
| ResultMap.CommentedIgnoresText | src/main/java/com/chrm/mybatis/generator/plugins/CommentPlugin.java:153-154 | the input's text nodes play no part: the result is that of the input without them |
| ResultMap.CommentedIdempotent | src/main/java/com/chrm/mybatis/generator/plugins/CommentPlugin.java:138-207 | commenting a result map twice gives the same children as commenting it once |
| ResultMap.CommentedEndsWithElement | src/main/java/com/chrm/mybatis/generator/plugins/CommentPlugin.java:199-201 | a non-empty result ends with an XML element |
| ResultMap.CommentedNotesPrecede | src/main/java/com/chrm/mybatis/generator/plugins/CommentPlugin.java:199-201 | every element with a note comes right after a blank text node and its `<!-- remark -->` node; every element without one comes first or right after another element |
| ResultMap.CommentedTextIsNote | src/main/java/com/chrm/mybatis/generator/plugins/CommentPlugin.java:153-201 | every text node of the result is a blank line followed by a note, or a note followed by the element it belongs to; no original text node survives |
| Dom.HasRemark | src/main/java/com/chrm/mybatis/generator/plugins/CommentPlugin.java:68 | an absent, empty or one-character remark is never used, and a used remark has at least two characters |
| Dom.TopLevelClass.AddImportedType | src/main/java/com/chrm/mybatis/generator/plugins/CommentPlugin.java:271 | the model class's imports gain the type; its javadoc and annotations are unchanged |
| Dom.TopLevelClass.AddAnnotation | src/main/java/com/chrm/mybatis/generator/plugins/CommentPlugin.java:272 | the model class's annotations gain the text at the end; its javadoc and imports are unchanged |
| Dom.Interface.AddImportedType | src/main/java/com/chrm/mybatis/generator/plugins/CommentPlugin.java:132-133 | the interface's imports gain the type; its annotations are unchanged |
| Dom.Interface.AddAnnotation | src/main/java/com/chrm/mybatis/generator/plugins/CommentPlugin.java:134 | the interface's annotations gain the text at the end; its imports are unchanged |
| Comments.BoolText | src/main/java/com/chrm/mybatis/generator/plugins/CommentPlugin.java:75 | the text of a boolean parses back as that boolean |
| Comments.ClassHeader | src/main/java/com/chrm/mybatis/generator/plugins/CommentPlugin.java:39-43 | a four-line javadoc block with the table line and the generator/date line |
| Comments.FieldDoc | src/main/java/com/chrm/mybatis/generator/plugins/CommentPlugin.java:64-77 | a javadoc block of 7 lines when the remark is longer than one character and 5 otherwise; the remark and blank line come first when present, then the table, column and nullability lines |
| Comments.FieldDocMentionsRemark | src/main/java/com/chrm/mybatis/generator/plugins/CommentPlugin.java:67-71 | the remark line appears in the field javadoc exactly when the remark is longer than one character |
| Comments.Banner | src/main/java/com/chrm/mybatis/generator/plugins/CommentPlugin.java:259 | the banner opens an XML comment; the timestamp follows its 45-character head, and the whole is 56 characters longer than the timestamp |
| Comments.Footer | src/main/java/com/chrm/mybatis/generator/plugins/CommentPlugin.java:258-261 | four text nodes: a blank line, the banner around the timestamp, the placeholder comment, a blank line |
| Plugin.Rendered | src/main/java/com/chrm/mybatis/generator/plugins/CommentPlugin.java:271-273 | one annotation text per enabled annotation; the text at each position is given by `Plugin.RenderedAt` |
| Plugin.RenderedAt | src/main/java/com/chrm/mybatis/generator/plugins/CommentPlugin.java:271-273 | the i-th text is the i-th enabled annotation rendered with its own options |
| Plugin.Imports | src/main/java/com/chrm/mybatis/generator/plugins/CommentPlugin.java:271-272 | the class of every enabled annotation is imported, and nothing is imported when none is enabled |
| Plugin.ImportsExact | src/main/java/com/chrm/mybatis/generator/plugins/CommentPlugin.java:271-272 | a class is imported exactly when it is the class of some enabled annotation |
| Plugin.Collect | src/main/java/com/chrm/mybatis/generator/plugins/CommentPlugin.java:113-122 | the option lists after a run of the loops: no list is created or removed |
| Plugin.CollectOptions | src/main/java/com/chrm/mybatis/generator/plugins/CommentPlugin.java:113-122 | each annotation's list is its old list followed by exactly the options the events append to it, in order |
| Plugin.FindColumn | src/main/java/com/chrm/mybatis/generator/plugins/CommentPlugin.java:159-168 | the search loop with its `break` returns the column of the first `column` attribute |
| Plugin.NoteOf | src/main/java/com/chrm/mybatis/generator/plugins/CommentPlugin.java:156-184 | the branches of the source compute the element's note |
| Plugin.RemoveAttribute | src/main/java/com/chrm/mybatis/generator/plugins/CommentPlugin.java:239-254 | the do-while loop leaves the element's attributes with the first match removed; name and children unchanged |
| Plugin.DropText | src/main/java/com/chrm/mybatis/generator/plugins/CommentPlugin.java:147-188 | the first pass keeps exactly the XML elements, records each one's note, and reports whether any note was found |
| Plugin.InsertNotes | src/main/java/com/chrm/mybatis/generator/plugins/CommentPlugin.java:194-202 | the second pass puts a blank line and the note in front of each element that has one |
| Plugin.CommentResultMap | src/main/java/com/chrm/mybatis/generator/plugins/CommentPlugin.java:138-207 | the element's children become their commented form; the element's name and attributes are unchanged |
| Plugin.CommentPlugin.constructor | src/main/java/com/chrm/mybatis/generator/plugins/CommentPlugin.java:28-30 | a new plugin has an empty annotation set and an empty option list for every annotation |
| Plugin.CommentPlugin.AppendOptions | src/main/java/com/chrm/mybatis/generator/plugins/CommentPlugin.java:323-327 | exactly one option string is appended to this annotation's list; every other list and the set are unchanged, and the plugin's invariant is kept |
| Plugin.CommentPlugin.SetProperties | src/main/java/com/chrm/mybatis/generator/plugins/CommentPlugin.java:91-124 | the set becomes the configured set, with Data added first if absent, and the invariant is kept; each annotation's options grow by exactly the options of its events |
| Plugin.CommentPlugin.EnableWithOption | src/main/java/com/chrm/mybatis/generator/plugins/CommentPlugin.java:120-122 | the property's option is appended to the annotation's list, and the set gains the annotation and then its dependencies |
| Plugin.CommentPlugin.ConfigureAnnotation | src/main/java/com/chrm/mybatis/generator/plugins/CommentPlugin.java:112-122 | the inner loop enables the annotation once per matching property and appends that property's option; the plugin's invariant is kept |
| Plugin.CommentPlugin.AddAnnotations | src/main/java/com/chrm/mybatis/generator/plugins/CommentPlugin.java:270-275 | the class gains the imports of the enabled annotations, and their rendered texts in set order; the javadoc is unchanged |
| Plugin.CommentPlugin.ModelBaseRecordClassGenerated | src/main/java/com/chrm/mybatis/generator/plugins/CommentPlugin.java:37-46 | the class javadoc is replaced by the header, the annotations are added, and the hook returns true |
| Plugin.CommentPlugin.Comment | src/main/java/com/chrm/mybatis/generator/plugins/CommentPlugin.java:64-77 | the field's javadoc is replaced by the field javadoc text |
| Plugin.CommentPlugin.ModelFieldGenerated | src/main/java/com/chrm/mybatis/generator/plugins/CommentPlugin.java:48-52 | the field's javadoc is replaced, and the hook returns true |
| Plugin.CommentPlugin.ResultMapElementGenerated | src/main/java/com/chrm/mybatis/generator/plugins/CommentPlugin.java:79-89 | both result-map hooks comment the element's children and return true |
| Plugin.CommentPlugin.StatementElementGenerated | src/main/java/com/chrm/mybatis/generator/plugins/CommentPlugin.java:209-237 | the five statement hooks remove the first `parameterType` attribute and return true |
| Plugin.CommentPlugin.SqlMapDocumentGenerated | src/main/java/com/chrm/mybatis/generator/plugins/CommentPlugin.java:256-263 | the root element's children gain the four footer nodes at the end; nothing else changes |
| Plugin.CommentPlugin.ClientGenerated | src/main/java/com/chrm/mybatis/generator/plugins/CommentPlugin.java:126-136 | the interface gains the `Mapper` import and the `@Mapper` annotation |
| Plugin.CommentPlugin.Validate | src/main/java/com/chrm/mybatis/generator/plugins/CommentPlugin.java:32-35 | every configuration is accepted and no warning is added |
| Plugin.CommentPlugin.ModelAccessorMethodGenerated | src/main/java/com/chrm/mybatis/generator/plugins/CommentPlugin.java:54-62 | both the getter and the setter hook return false, so no accessor is generated |

## Left out

- Strings.Fold: case folding covers the ASCII letters and the four other characters that Java folds onto an ASCII letter (U+0130 and U+0131 onto `i`, U+017F onto `s`, U+212A onto `k`). Two non-ASCII letters that Java treats as equal ignoring case, such as `é` and `É`, are treated as different. This never matters here: every case-insensitive comparison in the plugin has a fixed ASCII side (the six keys, `column`, `true`, `parameterType`), and with one side ASCII the model gives Java's answer.
- Dom.HasRemark: a remark's length is counted in characters, not UTF-16 code units. The source compares the length with 1, so only a remark of one supplementary character is judged differently: Java uses it, the model does not. `Comments.FieldDoc` and `ResultMap.Note` inherit this.
- The clock is not read. The date of the class header (`date2Str(new Date())`, formatted `yyyy-MM-dd`) and the timestamp of the document banner (`yyyy-MM-dd HH:mm:ss`) are string parameters.
- The host generator's types are reduced to the parts the plugin touches:
  - `IntrospectedTable.getColumn` is a map from column name to column;
  - `getFullyQualifiedTable()` is its text;
  - `addImportedType` is set union;
  - `FullyQualifiedJavaType` is its name.
- `super.setProperties` (which stores the properties in the host adapter) is not part of this model.
- The order of `stringPropertyNames()` is unspecified in Java. It is taken as the order of the given property list, with distinct names.
- The option lists live in the enum constants in the source, so they are shared by all plugin instances and keep growing over repeated `setProperties` calls. Here they are a field of the plugin. `SetProperties` states how the lists grow from any starting contents, and the configuration lemmas describe a single call on a fresh plugin.
- ResultMap.ResolveColumn: the alias cut (`alias.length() + 1` and `substring`) and its precondition count characters, not UTF-16 code units as Java does. When the alias or the column text holds a character outside the Basic Multilingual Plane, the model cuts the column at a different place, a column that Java can cut may fail the precondition, and a column that Java cannot cut may pass it (alias `\U{1D42E}`, one character but two code units, with column `ab`: Java's `substring(3)` throws, while the model gives the empty text). `ResultMap.Resolvable`, `ResultMap.Note`, `Plugin.NoteOf` and `Plugin.CommentResultMap` inherit this. When every character of the alias and the column text is in the Basic Multilingual Plane, the two counts agree.
- Plugin.CommentResultMap: a column value shorter than the alias plus one makes the source throw `StringIndexOutOfBoundsException`. The model states this as a precondition instead. A child that is neither text nor an XML element (a `ClassCastException` in the source) cannot be built, because a node is one or the other.
- Plugin.CommentResultMap: the source collects notes in a `HashMap` keyed by element identity. It then inserts each note in front of the element's position, found with `indexOf`. The model computes, for each kept element, its note in list order, and rebuilds the list in one pass. The order of the HashMap does not change the result. If one element object occurred twice among the children, the source would place its note only before the first occurrence; the model treats the occurrences as separate elements.
- Plugin.CommentPlugin.ConfigureAnnotation: the inner loop of `setProperties` is this separate method; it keeps the source's loop and its `continue`. The three statements of the loop body are the method `EnableWithOption`.
- Plugin.DropText: the first pass of `commentResultMap` keeps the source's loop over the children; it records each kept element's note in a list instead of the identity `HashMap`.
- Plugin.InsertNotes: the second pass does not keep the source's loop. The source walks the `HashMap` key set and inserts with `es.add(id, …)` at the index `indexOf` finds. The model walks the kept elements in list order and builds the result in one pass.
