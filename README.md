# MangoDocs comment parser and page builders, modelled in Dafny

MangoDocs turns JavaScript source files into HTML documentation pages. It reads
the source files line by line. Comment lines carry annotations such as
`@class`, `@namespace`, `@staticmethod`, `@param` or `@return`. Code lines end
the current annotation. Each annotated comment creates an entry or adds to one.
The entries go into a shared registry.

This model covers:

- the line classifier and normaliser: comment, useful, instance-property
  shape, `{@default …}`, comment-marker trimming, and the annotation check
  that throws;
- the two link rewriters. Each turns `<Name>` spans into
  `<tt><a href="Name.html">Name</a></tt>` unless `Name` is a reserved tag.
  Each keeps its own reserved set.
- the annotation catalogue, with case-insensitive resolution through
  canonical names and then aliases, and the annotation cursors;
- the per-line state machine of the parser and the context handlers that
  create, register and describe entries;
- the entry classes with their nullable capabilities, their five variants,
  parameters and return values;
- the registry, which is a name-ordered set plus a key-to-entry map;
- the HTML node and its serialisation;
- the signature strings, null guards, tables and nested sidebar entries of
  the partial page builder;
- the lookup of layout expressions.

The Java classes that are updated in place are Dafny classes here:

- `Entry`, `Parameter`, `ReturnValue`, `EntrySet`, `Documentation` and `DOMNode`;
- the static cursors of the `Annotation` enum, collected in `Cursors`.

The static singletons become objects that are passed to every handler.
`Annotation.current` is read and written only by the parse loop, so it is
passed through that loop as a value.

The name-ordered `TreeSet`s are maps keyed by entry name. In a `TreeSet`, the
first entry added under a name wins.

Exceptions and `System.exit` become `Failure` values, and the first failure
ends the parse. Java's `null + "." + x` yields the text `"null.x"`, and the
model keeps that.

The link scanner splices each link at indices of the input line rather than of
the output built so far. Once one link has been expanded, a later link lands at
the wrong place. The model keeps this behaviour, and `LinkScan.SecondLinkAtInputIndex`
shows it.

The model keeps two behaviours of the source:

- `@namespace A.B` adds the new namespace to the top-level set as well as to
  the nested namespaces of `A`;
- `Line` and `LinkChecker` use different reserved sets: `{p, /p, tt, /tt}`
  and `{p, /p, code, /code}`.

## Model

Source paths are relative to the repository root.

| member | source | states |
|---|---|---|
| Common.GenerateKey | src/com/mangoshine/doc/construct/EntrySet.java:97-99 | the key is the parent, one `.`, then the name, and both parts can be read back from the key |
| Annotations.ValueOf | src/com/mangoshine/doc/annotation/Annotation.java:10-26 | `valueOf` finds the constant whose name is exactly s, and nothing when no constant has that name |
| Annotations.ValueOfName | src/com/mangoshine/doc/annotation/Annotation.java:10-26 | every constant is found under its own name |
| Annotations.LowerNameResolves | src/com/mangoshine/doc/annotation/Annotation.java:84-91 | setCurrent of a constant's lower-case name selects that constant |
| Annotations.GetAlias | src/com/mangoshine/doc/annotation/Annotation.java:52-64 | an alias is found exactly when the upper-cased string is one of CTOR, EVT, EX, IM, IP, RET, SM, SP |
| Annotations.AliasTargets | src/com/mangoshine/doc/annotation/Annotation.java:52-64 | each of the eight short spellings, in any case, maps to its own constant, and only that spelling maps to it |
| Annotations.AliasesAreNotNames | src/com/mangoshine/doc/annotation/Annotation.java:52-64 | no alias spelling is also a canonical name, so the canonical-first order of setCurrent never hides an alias |
| Annotations.ValidIffResolves | src/com/mangoshine/doc/annotation/Annotation.java:121-131 | isValid(s) holds exactly when setCurrent(s) leaves `current` non-null |
| Annotations.Cursors.constructor | src/com/mangoshine/doc/annotation/Annotation.java:10-35 | every constant's currentName, currentClassOrMethod and currentClassOrNamespace start null |
| Annotations.Cursors.SetCurrentClassOrMethod | src/com/mangoshine/doc/annotation/Annotation.java:94-100 | the field becomes the constant named by the upper-cased value when there is one, and is left unchanged otherwise, aliases included |
| Annotations.Cursors.SetCurrentClassOrNamespace | src/com/mangoshine/doc/annotation/Annotation.java:103-109 | the same rule for currentClassOrNamespace |
| Annotations.Cursors.SetCurrentName | src/com/mangoshine/doc/annotation/Annotation.java:41-43 | only kind k's currentName changes, and it becomes the value |
| Annotations.Cursors.SetQualifiedCurrentName | src/com/mangoshine/doc/annotation/Annotation.java:45-47 | only kind k's currentName changes, and it becomes `parent.value` |
| Lines.HandleLinks | src/com/mangoshine/doc/parsing/Line.java:34-70 | the loop yields the link scan with the reserved set {p, /p, tt, /tt}, and a line without `<` comes back unchanged |
| Lines.ReservedTagKept | src/com/mangoshine/doc/parsing/Line.java:17-27 | a lone reserved span such as `<p>` is copied through unchanged |
| Lines.NameBecomesLink | src/com/mangoshine/doc/parsing/Line.java:47-58 | a lone non-reserved `<w>` becomes `<tt><a href="w.html">w</a></tt>` and its `>` is consumed |
| Lines.TeletypeKept | src/com/mangoshine/doc/parsing/Line.java:17-27 | `<tt>x</tt>` is left as it is |
| Lines.IsComment | src/com/mangoshine/doc/parsing/Line.java:110-112 | true exactly when the line starts with `//` |
| Lines.IsUseful | src/com/mangoshine/doc/parsing/Line.java:114-128 | the scan with early return answers true exactly when some character is a letter or a digit |
| Lines.RuleNotUseful | src/com/mangoshine/doc/parsing/Line.java:114-128 | a line made only of `/`, `-`, `=`, `*` and blanks is not useful |
| Lines.IsStandaloneInstanceProperty | src/com/mangoshine/doc/parsing/Line.java:152-158 | true exactly when there is a `{` before the first `}` and the first `}` is before the first `:`; an unmatched brace gives false |
| Lines.IsInstanceProperty | src/com/mangoshine/doc/parsing/Line.java:135-143 | true exactly when the line has a `//` and the suffix from its first occurrence has the standalone shape |
| Lines.TrimComment | src/com/mangoshine/doc/parsing/Line.java:163-166 | fails only on the empty line, where the substring is out of range; otherwise the result has no surrounding blanks and is shorter than the line |
| Lines.TrimCommentAfterMarker | src/com/mangoshine/doc/parsing/Line.java:163-166 | everything up to and including the first `//` is dropped, and so are the blanks around the rest |
| Lines.IsAnnotation | src/com/mangoshine/doc/parsing/Line.java:171-173 | true exactly when the line starts with `@` |
| Lines.CheckForAnnotation | src/com/mangoshine/doc/parsing/Line.java:80-96 | `""` for a line not starting with `@`. An `@` line with no blank throws MissingAnnotationValue. It throws InvalidAnnotation when the token before the first blank is not valid. Otherwise it returns that token. |
| Lines.AnnotationToken | src/com/mangoshine/doc/parsing/Line.java:80-96 | `@token rest` with a valid blank-free token gives back the token |
| Lines.EmptyIsNotValid | src/com/mangoshine/doc/annotation/Annotation.java:121-131 | the empty token is not valid, so `@ x` throws InvalidAnnotation |
| Lines.ContainsDefault | src/com/mangoshine/doc/parsing/Line.java:101-105 | true exactly when `{@default` occurs and some `}` lies after it |
| LinkCheck.HandleLinks | src/com/mangoshine/doc/parsing/LinkChecker.java:28-64 | the loop yields the link scan with the reserved set {p, /p, code, /code}, and a line without `<` comes back unchanged |
| LinkCheck.CodeKept | src/com/mangoshine/doc/parsing/LinkChecker.java:9-21 | `<code>x</code>` is left as it is |
| LinkCheck.TeletypeIsLink | src/com/mangoshine/doc/parsing/LinkChecker.java:9-21 | `<tt>` becomes a link here, while Line's set keeps it |
| LinkCheck.FirstSpanLink | src/com/mangoshine/doc/parsing/LinkChecker.java:45-51 | the first span `<w>` of a line becomes the literal `<tt><a href="w.html">w</a></tt>` |
| LinkScan.Replace | src/com/mangoshine/doc/parsing/LinkChecker.java:51 | StringBuilder.replace keeps the prefix, puts the text at start, and clamps an end past the length |
| LinkScan.NewLinkNode | src/com/mangoshine/doc/parsing/LinkChecker.java:47-50 | the `tt` node around the `a` node serialises as the link text |
| LinkScan.HandleLinks | src/com/mangoshine/doc/parsing/LinkChecker.java:28-64 | the loop over the line computes the scan function on every input and every reserved set |
| LinkScan.NoOpenUnchanged | src/com/mangoshine/doc/parsing/LinkChecker.java:36-63 | a line with no `<` is returned unchanged |
| LinkScan.SingleSpan | src/com/mangoshine/doc/parsing/LinkChecker.java:38-56 | a line with one span `<w>` keeps it when reserved and turns it into a link otherwise |
| LinkScan.InnermostOpener | src/com/mangoshine/doc/parsing/LinkChecker.java:38-46 | the span opens at the last `<` before the `>`, so in `<a<b>` the link name is `b` |
| LinkScan.LeadingCloserIgnored | src/com/mangoshine/doc/parsing/LinkChecker.java:41-45 | a `>` at index 0 never closes a span, because the test is `end > 0` |
| LinkScan.StaleCloserFails | src/com/mangoshine/doc/parsing/LinkChecker.java:41-46 | a `>` at index above 0 before every `<`, followed later by a `<`, makes the substring throw |
| LinkScan.ReservedThenSpan | src/com/mangoshine/doc/parsing/LinkChecker.java:38-56 | a reserved span followed by a second span leaves the builder in step, so the second span expands in place |
| LinkScan.SecondLinkAtInputIndex | src/com/mangoshine/doc/parsing/LinkChecker.java:51 | after one link, the second splice lands at the second span's input index within the longer builder |
| Entries.Parameter.constructor | src/com/mangoshine/doc/construct/Parameter.java:13-17 | name, type and description are stored verbatim |
| Entries.Parameter.Description | src/com/mangoshine/doc/construct/Parameter.java:27-33 | the description passed through Line's link scan; link-free text comes back as stored |
| Entries.Parameter.AppendToDescription | src/com/mangoshine/doc/construct/Parameter.java:35-37 | the description becomes `d + " " + t` |
| Entries.Parameter.SetArgType | src/com/mangoshine/doc/construct/Parameter.java:39-41 | only the type changes |
| Entries.ReturnValue.Empty | src/com/mangoshine/doc/construct/ReturnValue.java:6-8 | type and description start empty, so the value is empty and its type reads "undefined" |
| Entries.ReturnValue.constructor | src/com/mangoshine/doc/construct/ReturnValue.java:10-13 | type and description are stored verbatim |
| Entries.ReturnValue.AppendToDescription | src/com/mangoshine/doc/construct/ReturnValue.java:15-17 | the description becomes `d + " " + t` |
| Entries.ReturnValue.SetType | src/com/mangoshine/doc/construct/ReturnValue.java:19-21 | the type is replaced |
| Entries.ReturnValue.Type | src/com/mangoshine/doc/construct/ReturnValue.java:27-32 | "undefined" for an empty stored type, else the stored type; never empty |
| Entries.ReturnValue.IsEmpty | src/com/mangoshine/doc/construct/ReturnValue.java:34-36 | true exactly when the raw type and the description are both empty |
| Entries.AddByName | src/com/mangoshine/doc/construct/Entry.java:237-240 | a TreeSet ordered by name ignores a second member under a present name and keeps the set keyed by name |
| Entries.Entry.ConstructorEntry | src/com/mangoshine/doc/construct/ConstructorEntry.java:9-12 | CONSTRUCTOR with the given name and an empty parameter list; every other capability is absent |
| Entries.Entry.ClassEntry | src/com/mangoshine/doc/construct/ClassEntry.java:12-18 | CLASS with empty method, property and nested-namespace sets, and an eager constructor of the same name |
| Entries.Entry.NamespaceEntry | src/com/mangoshine/doc/construct/NamespaceEntry.java:9-14 | NAMESPACE with empty member sets, no constructor, and type `""` |
| Entries.Entry.MethodEntry | src/com/mangoshine/doc/construct/MethodEntry.java:9-13 | the given kind, an empty parameter list and an empty return value whose type reads "undefined"; no type, default or member sets |
| Entries.Entry.PropertyEntry | src/com/mangoshine/doc/construct/PropertyEntry.java:9-15 | the given kind, default and type `""`, an empty parameter list and an empty return value; no member sets or constructor |
| Entries.Entry.AppendToDescription | src/com/mangoshine/doc/construct/Entry.java:50-56 | an empty description becomes `<p>` + t, any other gets `" " + t` appended |
| Entries.Entry.SetDefault | src/com/mangoshine/doc/construct/Entry.java:58-62 | sets the default only when the capability exists |
| Entries.Entry.SetType | src/com/mangoshine/doc/construct/Entry.java:64-68 | sets the type only when the capability exists |
| Entries.Entry.SetReturnValue | src/com/mangoshine/doc/construct/Entry.java:70-74 | replaces the return value only when one exists |
| Entries.Entry.SetReturnValueParts | src/com/mangoshine/doc/construct/Entry.java:76-81 | sets the existing return value's type and appends to its description |
| Entries.Entry.AddParameter | src/com/mangoshine/doc/construct/Entry.java:83-87 | appends at the end of an existing list, duplicates allowed, and does nothing otherwise |
| Entries.Entry.AddProperty | src/com/mangoshine/doc/construct/Entry.java:89-93 | adds by name to an existing property set, where the first member under a name wins |
| Entries.Entry.AddNestedNamespace | src/com/mangoshine/doc/construct/Entry.java:95-99 | the same for the nested-namespace set |
| Entries.Entry.AddMethod | src/com/mangoshine/doc/construct/Entry.java:101-105 | the same for the method set |
| Entries.Entry.Description | src/com/mangoshine/doc/construct/Entry.java:115-117 | the description passed through Line's link scan; link-free text comes back as stored |
| Entries.Entry.Type | src/com/mangoshine/doc/construct/Entry.java:123-125 | the type capability, except that a namespace always answers `""` |
| Entries.Entry.CompareTo | src/com/mangoshine/doc/construct/Entry.java:237-240 | zero exactly for equal names, and the opposite of comparing the other name with this one |
| Entries.Entry.GetMethod | src/com/mangoshine/doc/construct/Entry.java:151-160 | a method of that name when there is one, else null |
| Entries.Entry.GetMethods | src/com/mangoshine/doc/construct/Entry.java:162-164 | exactly the methods whose kind is among the filters, and empty without the capability |
| Entries.Entry.GetProperties | src/com/mangoshine/doc/construct/Entry.java:166-168 | exactly the properties whose kind is among the filters, and empty without the capability |
| Entries.Entry.GetMembers | src/com/mangoshine/doc/construct/Entry.java:173-180 | the filtered methods and properties by name, methods first, plus the constructor when CONSTRUCTOR is a filter; it throws exactly when CONSTRUCTOR is a filter and the constructor is null |
| Entries.KindFiltered | src/com/mangoshine/doc/construct/Entry.java:182-204 | keeps exactly the entries whose kind is among the filters, and changes none of them |
| Entries.MatchesAny | src/com/mangoshine/doc/construct/Entry.java:193-197 | the loop over the filters answers true exactly when the entry's kind is one of them |
| Entries.FilterByKind | src/com/mangoshine/doc/construct/Entry.java:182-204 | the copy-and-remove loop leaves the filtered set, and an empty one for a null set |
| Registry.EntrySet.constructor | src/com/mangoshine/doc/construct/EntrySet.java:19-25 | the set and the map start empty |
| Registry.EntrySet.Add | src/com/mangoshine/doc/construct/EntrySet.java:30-34 | the map gets the entry under its name, the last write winning; the set adds it by name, the first one winning |
| Registry.EntrySet.AddUnder | src/com/mangoshine/doc/construct/EntrySet.java:36-38 | only the map changes: the entry goes under `parent.name` |
| Registry.EntrySet.Get | src/com/mangoshine/doc/construct/EntrySet.java:43-45 | the entry under the key, or null when the key is absent |
| Registry.EntrySet.GetUnder | src/com/mangoshine/doc/construct/EntrySet.java:47-49 | the lookup of `parent.name` |
| Registry.EntrySet.GetEntries | src/com/mangoshine/doc/construct/EntrySet.java:54-60 | the map's values collapsed by name: one entry for every name in the map, each one a value of the map |
| Registry.EntrySet.GetEntriesOf | src/com/mangoshine/doc/construct/EntrySet.java:65-87 | exactly the entries of the set whose kind is among the filters; parent-registered members never appear |
| Registry.Documentation.constructor | src/com/mangoshine/doc/construct/Documentation.java:12-16 | one shared registry over one empty EntrySet |
| Registry.Documentation.AddEntry | src/com/mangoshine/doc/construct/Documentation.java:21-23 | behaves as EntrySet.add; entries are only ever added |
| Registry.Documentation.AddEntryUnder | src/com/mangoshine/doc/construct/Documentation.java:29-31 | behaves as EntrySet.add(parent, e) |
| Registry.Documentation.GetEntry | src/com/mangoshine/doc/construct/Documentation.java:36-38 | the entry filed under the key, and null exactly for a key that is not registered |
| Registry.Documentation.GetEntryUnder | src/com/mangoshine/doc/construct/Documentation.java:43-45 | the lookup of `parent.name` |
| Registry.Documentation.GetEntries | src/com/mangoshine/doc/construct/Documentation.java:50-52 | behaves as EntrySet.getEntries() |
| Registry.Documentation.GetEntriesOf | src/com/mangoshine/doc/construct/Documentation.java:57-59 | behaves as EntrySet.getEntries(filters), so CLASS lists only top-level classes |
| ParserHelper.ParseAnnotation | src/com/mangoshine/doc/parsing/ParserHelper.java:256-264 | null for a line not starting with `@`; `("", "")` without a blank; otherwise the token before the first blank and the rest, which rebuild the line |
| ParserHelper.AnnotationRoundTrip | src/com/mangoshine/doc/parsing/ParserHelper.java:256-264 | `@word value` parses back to (word, value) for a blank-free word |
| ParserHelper.ParseParam | src/com/mangoshine/doc/parsing/ParserHelper.java:269-279 | succeeds exactly when the first `{`, `}` and `:` come in that order; the name and description come back trimmed |
| ParserHelper.ParamRoundTrip | src/com/mangoshine/doc/construct/Parameter.java:43-45 | parsing a parameter's `{T} N : D` gives back (N, T, D) when T has no `}` or `:`, N has no `:`, and N and D are trimmed |
| ParserHelper.StandaloneParses | src/com/mangoshine/doc/parsing/ParserHelper.java:269-279 | every line of the standalone instance-property shape parses as a parameter |
| ParserHelper.ParseStaticProperty | src/com/mangoshine/doc/parsing/ParserHelper.java:285-293 | succeeds exactly when the first `{` comes before the first `}`; gives the braced type and the trimmed rest, colon included |
| ParserHelper.StaticPropertyRoundTrip | src/com/mangoshine/doc/parsing/ParserHelper.java:285-293 | `{T} rest` gives back (T, rest) |
| ParserHelper.ParseReturn | src/com/mangoshine/doc/parsing/ParserHelper.java:298-303 | the braced type, and the untrimmed text after the first `:`, or the whole line when there is none |
| ParserHelper.ReturnRoundTrip | src/com/mangoshine/doc/parsing/ParserHelper.java:298-303 | `{T}middle:D` gives back (T, D) |
| ParserHelper.DefaultPrefix | src/com/mangoshine/doc/parsing/ParserHelper.java:48 | the text before the blank that precedes `{@default `, and a failure when the token starts the line |
| ParserHelper.HandleDefault | src/com/mangoshine/doc/parsing/ParserHelper.java:44-49 | sets an existing default to the link-expanded text between `{@default ` and the last `}`, and returns the text before the blank in front of the token |
| ParserHelper.DefaultRoundTrip | src/com/mangoshine/doc/parsing/ParserHelper.java:44-49 | `pre {@default v}post` gives the default v and the prefix pre |
| ParserHelper.DefaultFirstFails | src/com/mangoshine/doc/parsing/ParserHelper.java:44-49 | with the token at index 0 the default is read, but `substring(0, -1)` then throws |
| ParserHelper.HandleContextClass | src/com/mangoshine/doc/parsing/ParserHelper.java:54-67 | `@class X` registers a new class under X and points the class cursors at it; any other line appends to the current class's description |
| ParserHelper.DeclareClass | src/com/mangoshine/doc/parsing/ParserHelper.java:58-63 | registers a new ClassEntry under its name, sets CLASS's currentName and both cursors to CLASS |
| ParserHelper.ParentName | src/com/mangoshine/doc/parsing/ParserHelper.java:80-83 | the text before the last `.`, present exactly when there is a `.` |
| ParserHelper.HandleContextNamespace | src/com/mangoshine/doc/parsing/ParserHelper.java:69-91 | `@namespace A.B` registers a new namespace and nests it under the entry keyed A when there is one; other lines append to the current namespace's description |
| ParserHelper.DeclareNamespace | src/com/mangoshine/doc/parsing/ParserHelper.java:74-88 | registers the namespace, sets its cursor, and adds it to the parent's nested namespaces only when the parent exists |
| ParserHelper.HandleContextConstructor | src/com/mangoshine/doc/parsing/ParserHelper.java:93-105 | never creates an entry: `@constructor v` appends v, and a plain line appends itself, to the current class's constructor |
| ParserHelper.ParamTarget | src/com/mangoshine/doc/parsing/ParserHelper.java:110-127 | the current class's constructor when currentClassOrMethod is CLASS, else the entry keyed `class.method` |
| ParserHelper.HandleContextParam | src/com/mangoshine/doc/parsing/ParserHelper.java:110-127 | the parsed parameter is appended to the target's parameter list |
| ParserHelper.DeclaredMethod | src/com/mangoshine/doc/parsing/ParserHelper.java:136-141 | a method declaration with a `#` splits its value at the first `#` into owner and name |
| ParserHelper.FileMethod | src/com/mangoshine/doc/parsing/ParserHelper.java:142-145 | the method joins the owner's method set and is registered under `owner.name` |
| ParserHelper.DeclareMethod | src/com/mangoshine/doc/parsing/ParserHelper.java:136-160 | files a new method of the active kind under an existing owner and sets that kind's currentName; a missing owner stops the parse |
| ParserHelper.HandleContextMethod | src/com/mangoshine/doc/parsing/ParserHelper.java:129-162 | declarations create and file the method; other lines append to the entry keyed `class.method` |
| ParserHelper.AppendToMember | src/com/mangoshine/doc/parsing/ParserHelper.java:147-156 | appends to the member registered under the parent and the kind's currentName |
| ParserHelper.DeclaredProperty | src/com/mangoshine/doc/parsing/ParserHelper.java:173-188 | `@staticproperty P.n` splits at the first `.` into owner and name |
| ParserHelper.FileProperty | src/com/mangoshine/doc/parsing/ParserHelper.java:180-183 | the property joins the owner's property set and is registered under `owner.name` |
| ParserHelper.DeclareProperty | src/com/mangoshine/doc/parsing/ParserHelper.java:173-188 | a missing owner stops the parse; otherwise the property is filed |
| ParserHelper.PointAtStaticProperty | src/com/mangoshine/doc/parsing/ParserHelper.java:184-186 | STATICPROPERTY's currentName becomes the name, and currentClassOrMethod becomes STATICPROPERTY |
| ParserHelper.SplitDefault | src/com/mangoshine/doc/parsing/ParserHelper.java:191-196 | a description without a default is kept whole; with one, the default and the prefix come from handleDefault |
| ParserHelper.NewInstanceProperty | src/com/mangoshine/doc/parsing/ParserHelper.java:189-198 | builds an instance property from the parsed parameter, with its default moved out of the description |
| ParserHelper.AddInstanceProperty | src/com/mangoshine/doc/parsing/ParserHelper.java:189-198 | the instance property joins the current class or namespace's properties and is not registered |
| ParserHelper.DescribeStaticProperty | src/com/mangoshine/doc/parsing/ParserHelper.java:199-212 | a line after the declaration sets the type and appends the trimmed text after `}` |
| ParserHelper.TypeAndDescribe | src/com/mangoshine/doc/parsing/ParserHelper.java:203-206 | sets an existing type and appends the text to the description |
| ParserHelper.DeclarePropertyLine | src/com/mangoshine/doc/parsing/ParserHelper.java:173-188 | a declaration with a `.` files the property; one without a `.` stops the parse |
| ParserHelper.ContinueProperty | src/com/mangoshine/doc/parsing/ParserHelper.java:189-212 | a non-declaration line adds an instance property or describes the current static property |
| ParserHelper.HandleContextProperty | src/com/mangoshine/doc/parsing/ParserHelper.java:164-214 | dispatches between the declaration and the continuation lines as the two members above say |
| ParserHelper.HandleContextReturn | src/com/mangoshine/doc/parsing/ParserHelper.java:236-247 | only `@return {T} : D` acts: it sets the return value of the entry keyed `class.method`; continuation lines are ignored |
| Parser.NoContext | src/com/mangoshine/doc/parsing/ParserHelper.java:40-42 | setToNoContext selects NONE |
| Parser.Dispatch | src/com/mangoshine/doc/parsing/Parser.java:74-94 | a null annotation throws; the nine listed kinds go to their handlers; every other kind changes nothing |
| Parser.HandleCommentLine | src/com/mangoshine/doc/parsing/Parser.java:59-94 | a failing annotation check stops the parse; a new token becomes current before its handler takes the line |
| Parser.HandleOtherLine | src/com/mangoshine/doc/parsing/Parser.java:96-106 | a trailing instance property is recorded first; a non-comment resets the annotation to NONE; a decorative comment changes nothing |
| Parser.ProcessLine | src/com/mangoshine/doc/parsing/Parser.java:58-106 | a useful comment goes to the comment branch with its `//` stripped; every other line goes to the other branch |
| Parser.ParseLine | src/com/mangoshine/doc/parsing/Parser.java:56-106 | the trimmed line goes through the comment branch or the other branch, as ProcessLine does; a passive line changes nothing but the annotation |
| Parser.ParseFile | src/com/mangoshine/doc/parsing/Parser.java:46-109 | lines are taken in order up to the first failure; a file of passive lines leaves the registry and the cursors unchanged |
| Parser.Parse | src/com/mangoshine/doc/parsing/Parser.java:30-39 | files are taken in order into one registry and one set of cursors |
| Dom.PutAttr | src/com/mangoshine/doc/dom/DOMNode.java:38-43 | HashMap.put: the name maps to the new value, every other name keeps its value, and a new name is added at the end |
| Dom.AttrsTextSnoc | src/com/mangoshine/doc/dom/DOMNode.java:97-107 | a later attribute adds ` k="v"` after the earlier ones |
| Dom.OpeningTagShape | src/com/mangoshine/doc/dom/DOMNode.java:97-107 | `<name>` without attributes, and a newly added attribute shows as ` k="v"` before `>` |
| Dom.DOMNode.constructor | src/com/mangoshine/doc/dom/DOMNode.java:26-28 | the text is empty, and there are no attributes and no children |
| Dom.DOMNode.WithText | src/com/mangoshine/doc/dom/DOMNode.java:30-36 | the given text, no attributes and no children |
| Dom.DOMNode.AddAttribute | src/com/mangoshine/doc/dom/DOMNode.java:38-43 | stored only when name and value are both non-empty, and the same name overwrites |
| Dom.DOMNode.AppendNode | src/com/mangoshine/doc/dom/DOMNode.java:45-50 | null is ignored; any other node goes after the present children |
| Dom.DOMNode.AppendNodes | src/com/mangoshine/doc/dom/DOMNode.java:52-59 | the non-null nodes are appended in order; a null array does nothing |
| Dom.DOMNode.AppendText | src/com/mangoshine/doc/dom/DOMNode.java:61-64 | the text becomes `text + " " + t` |
| Dom.LeafToString | src/com/mangoshine/doc/dom/DOMNode.java:78-91 | a node without children serialises as its opening tag, its text and its closing tag |
| Dom.RenderLastChild | src/com/mangoshine/doc/dom/DOMNode.java:78-91 | the last child is serialised after the others, just before the closing tag |
| Dom.NodeText | src/com/mangoshine/doc/dom/DOMNode.java:126-131 | null serialises as `""`, and any other node as its toString |
| Dom.NewAnchor | src/com/mangoshine/doc/dom/DOMPartialBuilder.java:62-63 | an `a` node with an href serialises as `<a href="h">t</a>`, and without the href when h is empty |
| DomBuilder.BuildSignatureParamsString | src/com/mangoshine/doc/dom/DOMPartialBuilder.java:382-397 | the loop yields `" ( "`, the parameter names joined by `", "`, then `" )"`; a missing parameter list throws |
| DomBuilder.SignatureItemsCons | src/com/mangoshine/doc/dom/DOMPartialBuilder.java:382-397 | the first parameter's name opens the list and is followed by `", "` only when more follow |
| DomBuilder.NoParameterSignatures | src/com/mangoshine/doc/dom/DOMPartialBuilder.java:148-169 | without parameters the three signatures close as `" (  )"`, `" ( )"` and `" ( )"` |
| DomBuilder.OneParameterSignatures | src/com/mangoshine/doc/dom/DOMPartialBuilder.java:421-452 | with one parameter each signature shows exactly that parameter's item |
| DomBuilder.MethodSignatureText | src/com/mangoshine/doc/dom/DOMPartialBuilder.java:148-165 | the loop yields `<strong>name</strong> ( `, then the `<em>T</em> N` items joined by `", "`, then `)` when there are none and ` )` otherwise |
| DomBuilder.BuildMethodSignature | src/com/mangoshine/doc/dom/DOMPartialBuilder.java:148-169 | a span of class "signature" holding that text |
| DomBuilder.CallableSignatureText | src/com/mangoshine/doc/dom/DOMPartialBuilder.java:421-452 | the loop yields optional `static `, the return type, the bold name, and the `T N` items, with a blank after the last one, then `)` |
| DomBuilder.BuildEntrySignature | src/com/mangoshine/doc/dom/DOMPartialBuilder.java:404-452 | properties give `static ` only for STATICPROPERTY, the type and the bold name, with the name as id. Methods give the callable form, `static ` only for STATICMETHOD, and return type `""` without a return value. |
| DomBuilder.BuildDescription | src/com/mangoshine/doc/dom/DOMPartialBuilder.java:46-52 | null exactly when the text is empty, else a "description" div holding it |
| DomBuilder.BuildParamTable | src/com/mangoshine/doc/dom/DOMPartialBuilder.java:363-377 | one row per pair, in list order: name in the header cell, description in the data cell |
| DomBuilder.DescribeParams | src/com/mangoshine/doc/dom/DOMPartialBuilder.java:329-336 | the loop collects every parameter's name and description, stopping at a description whose links throw |
| DomBuilder.DescribedRowsSpec | src/com/mangoshine/doc/dom/DOMPartialBuilder.java:329-336 | the pairs exist exactly when every description expands, and pair i is parameter i's name and description |
| DomBuilder.BuildMethodParamsTable | src/com/mangoshine/doc/dom/DOMPartialBuilder.java:316-341 | null exactly for an empty parameter list; otherwise a "parametersContainer" holding the title and one row per parameter |
| DomBuilder.BuildReturnsTable | src/com/mangoshine/doc/dom/DOMPartialBuilder.java:120-142 | null when the return value is absent or empty; otherwise a "returnsTable" with the returns header and a row holding the type and the description |
| DomBuilder.InNameOrder | src/com/mangoshine/doc/dom/DOMPartialBuilder.java:94 | a TreeSet is visited once per name, in strictly increasing compareTo order |
| DomBuilder.BuildLink | src/com/mangoshine/doc/dom/DOMPartialBuilder.java:60-65 | a span whose text is the serialised link followed by the post text, each after a blank |
| DomBuilder.BuildSidebarEntryAt | src/com/mangoshine/doc/dom/DOMPartialBuilder.java:75-102 | the entry's link, indented by its level. With nested namespaces it also holds the fold marker, the "hasNamespaces" class and the nested entries one level deeper, in name order. A missing nested set throws. |
| DomBuilder.BuildNestedEntries | src/com/mangoshine/doc/dom/DOMPartialBuilder.java:91-98 | the "nestedNamespaces" div holds the sidebar entry of every nested namespace, in name order |
| DomBuilder.BuildSidebarEntry | src/com/mangoshine/doc/dom/DOMPartialBuilder.java:67-69 | the top-level sidebar entry starts at level 1 |
| DomBuilder.BuildSummaryTableTitle | src/com/mangoshine/doc/dom/DOMPartialBuilder.java:107-114 | a "summaryTableHeader" row whose link points at `#section-` + title |
| DomBuilder.SummaryRowTwoCol | src/com/mangoshine/doc/dom/DOMPartialBuilder.java:215-245 | the row shows the return type, in italics when it is "undefined" and `""` without a return value; a missing parameter list throws |
| DomBuilder.SummaryRowThreeCol | src/com/mangoshine/doc/dom/DOMPartialBuilder.java:264-290 | type, name linked to `name.html` for top-level links or to `#name`, and description |
| DomBuilder.BuildSummaryTableTwoCol | src/com/mangoshine/doc/dom/DOMPartialBuilder.java:202-250 | null exactly for an empty set; otherwise the title row and one row per entry; it fails exactly when some row throws |
| DomBuilder.BuildSummaryTableTwoColOf | src/com/mangoshine/doc/dom/DOMPartialBuilder.java:190-197 | null for a null entry, else the table of that one entry |
| DomBuilder.BuildSummaryTableThreeCol | src/com/mangoshine/doc/dom/DOMPartialBuilder.java:255-295 | null exactly for an empty set; otherwise the title row and one row per entry |
| DomBuilder.BuildSummaryTables | src/com/mangoshine/doc/dom/DOMPartialBuilder.java:300-311 | the seven tables in page order: constructor, nested namespaces, instance and static properties, instance and static methods, events; each is null when its set is empty |
| Expressions.FirstMatch | src/com/mangoshine/doc/writing/Expression.java:19-26 | the loop with early return finds a constant whose name equals the value ignoring case, or none when no constant matches |
| Expressions.Lookup | src/com/mangoshine/doc/writing/Expression.java:19-26 | returns the constant whose name equals the value ignoring case, and null exactly when no constant matches |
| Expressions.NamesDistinctIgnoringCase | src/com/mangoshine/doc/writing/Expression.java:8-13 | two constants' names are equal ignoring case only when the constants are the same |
| Expressions.LookupOwnName | src/com/mangoshine/doc/writing/Expression.java:8-26 | every constant is found under its name and under its lower-case name |
| Expressions.LookupByUpper | src/com/mangoshine/doc/writing/Expression.java:19-26 | any value whose upper case is a constant's name finds that constant |
| Expressions.LookupSeparator | src/com/mangoshine/doc/writing/Expression.java:9-21 | `css_import` finds CSS_IMPORT, while `css-import` finds nothing |

## Left out

- File and stream I/O. A file is its sequence of lines, and `parse()` takes the input files as a sequence. Reading the configured file names is left out.
- Writer, WriterHelper, AssetLibrary, MangoDoc, Config, DOMBuilder and the browser script. They write files, read resources, handle the command line, or embed the current date.
- buildContentHeader, buildSectionTitle, buildSubSectionTitle, buildDefaultDiv, buildPropertiesSectionBody, buildPropertyEntryBody and buildMethodsSectionBody of DOMPartialBuilder. They are section layout beyond the signatures, the null guards, the summary tables and the sidebar.
- DOMNode attribute order. The Java class keeps attributes in a HashMap, whose iteration order is left open. The model keeps insertion order, so `openingTag` is exact only for nodes with at most one attribute.
- Unicode. `Character.isLetter` and `isDigit`, and upper- and lower-casing, cover ASCII only.
- The message text of the exceptions, built with `String.format` padding. A failure carries the token, the line number and the file name instead.
- `System.exit` and `printStackTrace` in the handlers. They become a stopped outcome.
- Logging. The `Logger` calls are not part of this model.
- The `Pair` utility class. It is not part of this model and is treated as a tuple.
- Entry.toString, Parameter.toString, ReturnValue.toString, EntrySet.toString and Documentation.toString. They are debugging output.
- The plain getters of Entry, Parameter and ReturnValue. They are field reads in the model.
- Parser.HandleCommentLine: for a standalone instance-property line without an annotation, the contract says only that the annotation stays as it was. It does not say that the instance-property handler and then the current annotation's handler both take the line.
- Parser.ParseFile: states only the passive-file case and that the registry only grows. The effect of each line is stated by Parser.ParseLine and the handlers.
- Parser.ParseLine: takes the value of isUseful from Useful, which Lines.IsUseful is proved to compute, rather than running the scan inside the step.
- Parser.Parse: states only the passive-input case and that the registry only grows.
- Registry.EntrySet.GetEntries: does not say which of several same-named map values is kept. Java keeps the first in key order.
- Registry.Documentation.GetEntries: does not say which of several same-named values is kept, for the same reason.
- DomBuilder.SummaryRowTwoCol: states the type cell and the failure cases, but not the name, signature and description cell.
- DomBuilder.BuildSummaryTableTwoCol: states the null guard, the failure condition and the number of rows, but not the cells of each row.
- DomBuilder.BuildSummaryTableThreeCol: states the null guard, the failure condition and the number of rows, but not the cells of each row.
- Entries.Entry.Description: states the link-free case outright. Other text goes through Line's link scan, whose properties are stated under Lines and LinkScan.
- Entries.Parameter.Description: the same as Entries.Entry.Description.
