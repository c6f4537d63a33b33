/**
 * ParserHelper: the small line parsers (annotation pair, parameter, static
 * property, return value, default value) and one handler per annotation
 * context, each of which files entries into the Documentation registry and
 * moves the annotation cursors. A Java exception or System.exit ends the
 * handler with a Stopped outcome.
 */
module ParserHelper {
  import opened Common
  import opened Strings
  import opened Annotations
  import opened LinkScan
  import opened Lines
  import opened Entries
  import opened Registry

  // ---------------------------------------------------------------------------
  // Specific parsers
  // ---------------------------------------------------------------------------

  /** Annotation.Pair: the annotation word and the rest of the line. */
  datatype AnnotationPair = AnnotationPair(kind: string, value: string)

  /**
   * parseAnnotation(line): null (None) unless the line starts with `@`; an
   * empty pair when there is no space; else the word up to the first space
   * and everything after it.
   */
  function ParseAnnotation(line: string): (r: Option<AnnotationPair>)
    ensures r.None? <==> !IsAnnotation(line)
    ensures r.Some? && ' ' !in line ==> r.value == AnnotationPair("", "")
    ensures r.Some? && ' ' in line ==> "@" + r.value.kind + " " + r.value.value == line && ' ' !in r.value.kind
  {
    if !IsAnnotation(line) then None
    else
      var space := IndexOf(line, ' ');
      if space < 0 then Some(AnnotationPair("", ""))
      else
        assert line == line[..1] + line[1..space] + [' '] + line[space + 1..];
        Some(AnnotationPair(line[1..space], line[space + 1..]))
  }

  /** A declaration line `@word value` splits back into its word and value. */
  lemma AnnotationRoundTrip(word: string, value: string)
    requires ' ' !in word
    ensures ParseAnnotation("@" + word + " " + value) == Some(AnnotationPair(word, value))
  {
    var line := "@" + word + " " + value;
    assert line[1 + |word|] == ' ';
    assert forall i :: 0 <= i < 1 + |word| ==> line[i] != ' ' by {
      forall i | 0 <= i < 1 + |word| ensures line[i] != ' ' {
        if i > 0 {
          assert line[i] == word[i - 1];
        }
      }
    }
    assert IndexOf(line, ' ') == 1 + |word|;
    assert line[1..1 + |word|] == word;
    assert line[2 + |word|..] == value;
  }

  /** The line is a declaration of the given annotation word. */
  predicate Declares(line: string, word: string) {
    ParseAnnotation(line).Some? && ParseAnnotation(line).value.kind == word
  }

  /** The three parts of a parameter line `{type} name : description`. */
  datatype ParamText = ParamText(name: string, argType: string, description: string)

  /**
   * parseParam(line): the type between the first `{` and the first `}`, the
   * trimmed name up to the first `:`, the trimmed rest as the description.
   * A `}` before the first `{`, or no `:` after the first `}`, makes
   * String.substring throw.
   */
  function ParseParam(line: string): (r: Result<ParamText>)
    ensures r.Ok? <==> IndexOf(line, '{') < IndexOf(line, '}') < IndexOf(line, ':')
    ensures r.Fail? ==> r.failure == IndexOutOfBounds
    ensures r.Ok? ==> Trimmed(r.value.name) && Trimmed(r.value.description)
    ensures r.Ok? ==> '}' !in r.value.argType && ':' !in r.value.argType
  {
    var i := IndexOf(line, '}');
    var a := IndexOf(line, '{') + 1;
    if a > i then Fail(IndexOutOfBounds)
    else
      var j := IndexOf(line, ':');
      if i + 1 > j then Fail(IndexOutOfBounds)
      else
        InnerSlice(line, a, i, i);
        InnerSlice(line, a, i, j);
        Ok(SplitParam(line, a, i, j))
  }

  /** The parts of a parameter line, given where its type starts and its `}` and `:` stand. */
  function SplitParam(line: string, a: nat, i: nat, j: nat): ParamText
    requires a <= i < j < |line|
  {
    ParamText(Trim(line[i + 1..j]), line[a..i], Trim(line[j + 1..]))
  }

  /** Every character of s[a..i] is in s[..j]. */
  lemma InnerSlice(s: string, a: int, i: int, j: int)
    requires 0 <= a <= i <= j <= |s|
    ensures forall c :: c in s[a..i] ==> c in s[..j]
  {
    assert s[a..i] == s[..j][a..i];
  }

  /** The first c in s is at k. */
  lemma FirstAt(s: string, c: char, k: int)
    requires 0 <= k < |s| && s[k] == c && c !in s[..k]
    ensures IndexOf(s, c) == k
  {
    assert s[k] == c;
  }

  /** Where `{`, `}` and `:` first occur in `{type} name : description`, and what lies between. */
  lemma ParamIndices(argType: string, name: string, description: string)
    requires '}' !in argType && ':' !in argType && ':' !in name
    ensures var line := "{" + argType + "} " + name + " : " + description;
            var i := 1 + |argType|;
            var j := i + 3 + |name|;
            IndexOf(line, '{') == 0 && IndexOf(line, '}') == i && IndexOf(line, ':') == j &&
            line[1..i] == argType && line[i + 1..j] == " " + name + " " && line[j + 1..] == " " + description
  {
    var head := "{" + argType;
    var mid := "} " + name + " ";
    var line := head + mid + ": " + description;
    assert line == "{" + argType + "} " + name + " : " + description;
    var i := 1 + |argType|;
    var j := i + 3 + |name|;
    FirstAt(line, '{', 0);
    assert line[..i] == head;
    FirstAt(line, '}', i);
    assert line[..j] == head + mid;
    assert ':' !in mid;
    FirstAt(line, ':', j);
    assert line[1..i] == argType;
    assert line[i + 1..j] == " " + name + " ";
    assert line[j + 1..] == " " + description;
  }

  /** parseParam on a line whose `{` opens it and whose first `}` and `:` are at i and j. */
  lemma ParseParamAt(line: string, i: int, j: int)
    requires 0 < i < j < |line|
    requires IndexOf(line, '{') == 0 && IndexOf(line, '}') == i && IndexOf(line, ':') == j
    ensures ParseParam(line) == Ok(SplitParam(line, 1, i, j))
  {
  }

  /** The parts SplitParam cuts out when the slices hold a padded name and description. */
  lemma SplitParamOf(line: string, i: nat, j: nat, argType: string, name: string, description: string)
    requires 1 <= i < j < |line|
    requires Trimmed(name) && Trimmed(description)
    requires line[1..i] == argType && line[i + 1..j] == " " + name + " " && line[j + 1..] == " " + description
    ensures SplitParam(line, 1, i, j) == ParamText(name, argType, description)
  {
    TrimPadded(name, " ", " ");
    TrimPadded(description, " ", "");
    assert " " + description + "" == " " + description;
  }

  /**
   * Parameter.toString() writes `{type} name : description`; parseParam
   * reads it back whenever the type holds no `}` or `:`, the name no `:`,
   * and name and description carry no surrounding blanks.
   */
  lemma ParamRoundTrip(argType: string, name: string, description: string)
    requires '}' !in argType && ':' !in argType && ':' !in name
    requires Trimmed(name) && Trimmed(description)
    ensures ParseParam("{" + argType + "} " + name + " : " + description) ==
            Ok(ParamText(name, argType, description))
  {
    var line := "{" + argType + "} " + name + " : " + description;
    ParamIndices(argType, name, description);
    ParseParamOf(line, 1 + |argType|, 4 + |argType| + |name|, argType, name, description);
  }

  /** parseParam on a line laid out as `{type} name : description` at the indices i and j. */
  lemma ParseParamOf(line: string, i: nat, j: nat, argType: string, name: string, description: string)
    requires 0 < i < j < |line|
    requires IndexOf(line, '{') == 0 && IndexOf(line, '}') == i && IndexOf(line, ':') == j
    requires Trimmed(name) && Trimmed(description)
    requires line[1..i] == argType && line[i + 1..j] == " " + name + " " && line[j + 1..] == " " + description
    ensures ParseParam(line) == Ok(ParamText(name, argType, description))
  {
    ParseParamAt(line, i, j);
    SplitParamOf(line, i, j, argType, name, description);
  }

  /** A standalone instance-property line always has the shape parseParam accepts. */
  lemma StandaloneParses(line: string)
    requires IsStandaloneInstanceProperty(line)
    ensures ParseParam(line).Ok?
  {
    var a, b, k :| 0 <= a < b < k < |line| && line[a] == '{' && line[b] == '}' && line[k] == ':' &&
                   '}' !in line[..b] && ':' !in line[..k];
    assert IndexOf(line, '}') == b;
    assert IndexOf(line, ':') == k;
    assert IndexOf(line, '{') <= a;
  }

  /**
   * parseStaticProperty(line): the type between the first `{` and the
   * first `}`, and the trimmed rest of the line, colon included.
   */
  function ParseStaticProperty(line: string): (r: Result<(string, string)>)
    ensures r.Ok? <==> IndexOf(line, '{') < IndexOf(line, '}')
    ensures r.Fail? ==> r.failure == IndexOutOfBounds
    ensures r.Ok? ==> '}' !in r.value.0 && Trimmed(r.value.1)
  {
    var i := IndexOf(line, '}');
    var a := IndexOf(line, '{') + 1;
    if a > i then Fail(IndexOutOfBounds)
    else
      InnerSlice(line, a, i, i);
      Ok((line[a..i], Trim(line[i + 1..])))
  }

  /** `{type} rest` gives the type and the rest as it stands, so the colon is kept. */
  lemma StaticPropertyRoundTrip(argType: string, rest: string)
    requires '}' !in argType && Trimmed(rest)
    ensures ParseStaticProperty("{" + argType + "} " + rest) == Ok((argType, rest))
  {
    var head := "{" + argType;
    var line := head + "} " + rest;
    var i := 1 + |argType|;
    FirstAt(line, '{', 0);
    assert line[..i] == head;
    FirstAt(line, '}', i);
    assert line[1..i] == argType;
    assert line[i + 1..] == " " + rest;
    TrimPadded(rest, " ", "");
    assert " " + rest + "" == " " + rest;
  }

  /**
   * parseReturn(line): the type between the first `{` and the first `}`,
   * and everything after the first `:`, untrimmed; with no `:` the
   * description is the whole line.
   */
  function ParseReturn(line: string): (r: Result<(string, string)>)
    ensures r.Ok? <==> IndexOf(line, '{') < IndexOf(line, '}')
    ensures r.Fail? ==> r.failure == IndexOutOfBounds
    ensures r.Ok? ==> '}' !in r.value.0
    ensures r.Ok? && ':' !in line ==> r.value.1 == line
    ensures r.Ok? && ':' in line ==> r.value.1 == line[IndexOf(line, ':') + 1..]
  {
    var i := IndexOf(line, '}');
    var a := IndexOf(line, '{') + 1;
    if a > i then Fail(IndexOutOfBounds)
    else
      InnerSlice(line, a, i, i);
      Ok((line[a..i], line[IndexOf(line, ':') + 1..]))
  }

  /** `{type} ... : description` gives the type and the text after the colon, leading blank included. */
  lemma ReturnRoundTrip(argType: string, middle: string, description: string)
    requires '}' !in argType && ':' !in argType && ':' !in middle
    ensures ParseReturn("{" + argType + "}" + middle + ":" + description) == Ok((argType, description))
  {
    var head := "{" + argType;
    var line := head + "}" + middle + ":" + description;
    var i := 1 + |argType|;
    var j := i + 1 + |middle|;
    FirstAt(line, '{', 0);
    assert line[..i] == head;
    FirstAt(line, '}', i);
    assert line[..j] == head + "}" + middle;
    FirstAt(line, ':', j);
    assert line[1..i] == argType;
    assert line[j + 1..] == description;
  }

  /** The default text: what lies between `{@default ` and the last `}`, with its links expanded. */
  function DefaultValue(line: string): (r: Result<string>)
    ensures IndexOfSub(line, "{@default ") + 10 > LastIndexOf(line, '}') ==> r == Fail(IndexOutOfBounds)
  {
    var start := IndexOfSub(line, "{@default ");
    var end := LastIndexOf(line, '}');
    if start + 10 > end then Fail(IndexOutOfBounds)
    else ExpandLinks(line[start + 10..end], Lines.Reserved)
  }

  /** The text handleDefault returns: the line up to the blank before `{@default `. */
  function DefaultPrefix(line: string): (r: Result<string>)
    ensures r.Ok? <==> IndexOfSub(line, "{@default ") >= 1
    ensures r.Ok? ==> r.value == line[..IndexOfSub(line, "{@default ") - 1]
  {
    var start := IndexOfSub(line, "{@default ");
    if start < 1 then Fail(IndexOutOfBounds) else Ok(line[..start - 1])
  }

  /**
   * handleDefault(line, entry): sets the entry's default from the text
   * between `{@default ` and the last `}`, then returns the line before
   * the blank that precedes `{@default `.
   */
  method HandleDefault(line: string, entry: Entry) returns (r: Result<string>)
    modifies entry`default
    ensures DefaultValue(line).Fail? ==> r == Fail(DefaultValue(line).failure) && entry.default == old(entry.default)
    ensures DefaultValue(line).Ok? ==> r == DefaultPrefix(line)
    ensures DefaultValue(line).Ok? && old(entry.default).Some? ==> entry.default == Some(DefaultValue(line).value)
    ensures DefaultValue(line).Ok? && old(entry.default).None? ==> entry.default.None?
  {
    var start := IndexOfSub(line, "{@default ");
    var end := LastIndexOf(line, '}');
    if start + 10 > end {
      return Fail(IndexOutOfBounds);
    }
    var linked := Lines.HandleLinks(line[start + 10..end]);
    if linked.Fail? {
      return Fail(linked.failure);
    }
    entry.SetDefault(linked.value);
    if start < 1 {
      return Fail(IndexOutOfBounds);
    }
    r := Ok(line[..start - 1]);
  }

  /** No earlier `{`: the first `{@default ` is the one after pre and its blank. */
  lemma DefaultMarkerAt(pre: string, rest: string)
    requires '{' !in pre
    ensures IndexOfSub(pre + " {@default " + rest, "{@default ") == |pre| + 1
  {
    var line := pre + " {@default " + rest;
    assert OccursAt(line, "{@default ", |pre| + 1) by {
      assert line[|pre| + 1..|pre| + 11] == "{@default ";
    }
    forall i | 0 <= i < |pre| + 1
      ensures !OccursAt(line, "{@default ", i)
    {
      assert line[i] != '{' by {
        if i < |pre| {
          assert line[i] == pre[i];
        }
      }
    }
  }

  /**
   * `text {@default value} tail`: the default is the value, links expanded,
   * and the description keeps the text before the blank.
   */
  lemma DefaultRoundTrip(pre: string, value: string, post: string)
    requires '{' !in pre && '}' !in post && '<' !in value
    ensures DefaultValue(pre + " {@default " + value + "}" + post) == Ok(value)
    ensures DefaultPrefix(pre + " {@default " + value + "}" + post) == Ok(pre)
  {
    var line := pre + " {@default " + value + "}" + post;
    DefaultShape(line, pre, value, post);
    DefaultAt(line, |pre| + 1, |pre| + 11 + |value|, value);
  }

  /** Where the marker, the value and the last `}` sit in pre + ` {@default ` + value + `}` + post. */
  lemma DefaultShape(line: string, pre: string, value: string, post: string)
    requires line == pre + " {@default " + value + "}" + post
    requires '{' !in pre && '}' !in post
    ensures IndexOfSub(line, "{@default ") == |pre| + 1
    ensures LastIndexOf(line, '}') == |pre| + 11 + |value|
    ensures line[|pre| + 11..|pre| + 11 + |value|] == value && line[..|pre|] == pre
  {
    assert line == pre + " {@default " + (value + "}" + post);
    DefaultMarkerAt(pre, value + "}" + post);
    var end := |pre| + 11 + |value|;
    LastCloserAt(line, end, post);
    assert line[|pre| + 11..end] == value;
    assert line[..|pre|] == pre;
  }

  /** The last `}` of a line is at end when post, all that follows it, has none. */
  lemma LastCloserAt(line: string, end: nat, post: string)
    requires end < |line| && line[end] == '}' && line[end + 1..] == post && '}' !in post
    ensures LastIndexOf(line, '}') == end
  {
  }

  /** The default of a line whose marker is at start, whose last `}` is at end, and whose value between has no `<`. */
  lemma DefaultAt(line: string, start: int, end: int, value: string)
    requires IndexOfSub(line, "{@default ") == start && LastIndexOf(line, '}') == end
    requires 0 <= start && start + 10 <= end && line[start + 10..end] == value && '<' !in value
    ensures DefaultValue(line) == Ok(value)
  {
    NoOpenUnchanged(value, Lines.Reserved);
  }

  /**
   * A description that begins with its default, as `{@default 0}` alone,
   * has no blank before the marker: handleDefault sets the default and
   * then String.substring(0, -1) throws.
   */
  lemma DefaultFirstFails(value: string, post: string)
    requires '}' !in post && '<' !in value
    ensures DefaultValue("{@default " + value + "}" + post) == Ok(value)
    ensures DefaultPrefix("{@default " + value + "}" + post) == Fail(IndexOutOfBounds)
  {
    var line := "{@default " + value + "}" + post;
    LeadingDefaultShape(line, value, post);
    DefaultAt(line, 0, 10 + |value|, value);
  }

  /** Where the marker, the value and the last `}` sit in `{@default ` + value + `}` + post. */
  lemma LeadingDefaultShape(line: string, value: string, post: string)
    requires line == "{@default " + value + "}" + post && '}' !in post
    ensures IndexOfSub(line, "{@default ") == 0
    ensures LastIndexOf(line, '}') == 10 + |value|
    ensures line[10..10 + |value|] == value
  {
    assert OccursAt(line, "{@default ", 0) by {
      assert line[..10] == "{@default ";
    }
    var end := 10 + |value|;
    LastCloserAt(line, end, post);
    assert line[10..end] == value;
  }

  // ---------------------------------------------------------------------------
  // Handlers
  // ---------------------------------------------------------------------------

  /**
   * The registered entry under a currentName, null when there is none. A
   * null name makes TreeMap.get throw; every handler then fails with the
   * same NullPointerException it gets from a missing entry.
   */
  function EntryAt(doc: Documentation, key: Option<string>): (r: Entry?)
    reads doc, doc.filterSet
    ensures r != null <==> key.Some? && key.value in doc.Keys()
    ensures r != null ==> r == doc.GetEntry(key.value) && r in doc.Touchable()
  {
    if key.None? then null else doc.GetEntry(key.value)
  }

  /** Every object the registry reaches now was reached before or is new. */
  twostate predicate Grown(doc: Documentation)
    reads doc, doc.filterSet
  {
    forall x :: x in doc.Touchable() ==> x in old(doc.Touchable()) || fresh(x)
  }

  /** The cursors the handlers move are as they were. */
  twostate predicate CursorsKept(cur: Cursors)
    reads cur`currentName, cur`currentClassOrMethod, cur`currentClassOrNamespace
  {
    cur.currentName == old(cur.currentName) &&
    cur.currentClassOrMethod == old(cur.currentClassOrMethod) &&
    cur.currentClassOrNamespace == old(cur.currentClassOrNamespace)
  }

  /** Filing a new entry, whose constructor entry is new with it, keeps Grown. */
  twostate lemma GrownBy(doc: Documentation, new e: Entry)
    requires fresh(e) && (e.constructorEntry == null || fresh(e.constructorEntry))
    requires doc.Touchable() <= old(doc.Touchable()) + Own(e)
    ensures Grown(doc)
  {
  }

  /** The objects a handler may change: the one entry it works on, if any. */
  function Only(e: Entry?): set<object> {
    if e == null then {} else {e}
  }

  /** An entry's constructor entry, or null; what the constructor handler changes. */
  function ConstructorOf(e: Entry?): Entry? {
    if e == null then null else e.constructorEntry
  }

  /** The constructor entry of the current class, null when there is no class or no constructor. */
  function ClassConstructor(cur: Cursors, doc: Documentation): (r: Entry?)
    reads cur`currentName, cur`currentClassOrMethod, cur`currentClassOrNamespace, doc, doc.filterSet
    ensures r != null ==> r in doc.Touchable()
  {
    var e := EntryAt(doc, cur.CurrentName(CLASS));
    if e == null then null
    else
      assert e in doc.filterSet.entriesMap.Values;
      e.constructorEntry
  }

  /** The lower-case word of a declaration names its constant, as setCurrentClassOrMethod reads it. */
  lemma WordResolves(w: string, k: Kind)
    requires w == Lower(Name(k))
    ensures ValueOf(Upper(w)) == Some(k)
  {
    LowerNameResolves(k);
  }

  /** The declaring branch of handleContextClass: a new ClassEntry under v, and the class cursors on it. */
  method DeclareClass(v: string, cur: Cursors, doc: Documentation)
    requires doc.Valid()
    modifies cur`currentName, cur`currentClassOrMethod, cur`currentClassOrNamespace, doc.filterSet
    ensures doc.Valid()
    ensures old(doc.Keys()) <= doc.Keys()
    ensures var e := doc.GetEntry(v);
            e != null && fresh(e) && e.variant == ClassVariant && e.name == v &&
            doc.filterSet.entriesMap == old(doc.filterSet.entriesMap)[v := e] &&
            doc.filterSet.entries == AddByName(old(doc.filterSet.entries), e)
    ensures cur.currentName == old(cur.currentName)[CLASS := v]
    ensures cur.currentClassOrMethod == Some(CLASS) && cur.currentClassOrNamespace == Some(CLASS)
    ensures Grown(doc)
  {
    var e := new Entry.ClassEntry(v);
    doc.AddEntry(e);
    cur.SetCurrentName(CLASS, v);
    ClassWord();
    cur.SetCurrentClassOrMethod("class");
    cur.SetCurrentClassOrNamespace("class");
  }

  /** "class" names CLASS. */
  lemma ClassWord()
    ensures ValueOf(Upper("class")) == Some(CLASS)
  {
    WordResolves("class", CLASS);
  }

  /** "namespace" names NAMESPACE. */
  lemma NamespaceWord()
    ensures ValueOf(Upper("namespace")) == Some(NAMESPACE)
  {
    WordResolves("namespace", NAMESPACE);
  }

  /** "staticproperty" names STATICPROPERTY. */
  lemma StaticPropertyWord()
    ensures ValueOf(Upper("staticproperty")) == Some(STATICPROPERTY)
  {
    WordResolves("staticproperty", STATICPROPERTY);
  }

  /**
   * What handleContextClass does, e being the current class's entry before
   * the call: `@class X` files a new ClassEntry under X and points
   * CLASS.currentName and both class cursors at it; any other line is
   * appended to e's description, and a missing e throws.
   */
  twostate predicate ClassHandled(line: string, e: Entry?, cur: Cursors, doc: Documentation, o: Outcome)
    reads cur`currentName, cur`currentClassOrMethod, cur`currentClassOrNamespace, doc, doc.filterSet, Only(e)
  {
    (Declares(line, "class") ==>
       var v := ParseAnnotation(line).value.value;
       var c := doc.GetEntry(v);
       o == Done && c != null && fresh(c) && c.variant == ClassVariant && c.name == v &&
       doc.filterSet.entriesMap == old(doc.filterSet.entriesMap)[v := c] &&
       doc.filterSet.entries == AddByName(old(doc.filterSet.entries), c) &&
       cur.currentName == old(cur.currentName)[CLASS := v] &&
       cur.currentClassOrMethod == Some(CLASS) && cur.currentClassOrNamespace == Some(CLASS)) &&
    (!Declares(line, "class") ==>
       CursorsKept(cur) && unchanged(doc.filterSet) &&
       (e == null ==> o == Stopped(NullDereference)) &&
       (e != null ==> o == Done && e.description == Appended(old(e.description), line)))
  }

  /** handleContextClass(line), as ClassHandled says. */
  method HandleContextClass(line: string, cur: Cursors, doc: Documentation) returns (o: Outcome)
    requires doc.Valid()
    modifies cur`currentName, cur`currentClassOrMethod, cur`currentClassOrNamespace, doc.filterSet
    modifies Only(EntryAt(doc, cur.CurrentName(CLASS)))
    ensures doc.Valid()
    ensures old(doc.Keys()) <= doc.Keys()
    ensures ClassHandled(line, old(EntryAt(doc, cur.CurrentName(CLASS))), cur, doc, o)
    ensures Grown(doc)
  {
    var ann := ParseAnnotation(line);
    if ann.Some? && ann.value.kind == "class" {
      DeclareClass(ann.value.value, cur, doc);
      return Done;
    }
    var entry := EntryAt(doc, cur.CurrentName(CLASS));
    if entry == null {
      return Stopped(NullDereference);
    }
    entry.AppendToDescription(line);
    o := Done;
  }

  /** The key of a dotted namespace's parent: the text before its last `.`, None when there is no `.`. */
  function ParentName(v: string): (r: Option<string>)
    ensures r.Some? <==> '.' in v
    ensures r.Some? ==> |r.value| < |v| && r.value == v[..LastIndexOf(v, '.')]
  {
    var period := LastIndexOf(v, '.');
    if period < 0 then None else Some(v[..period])
  }

  /**
   * The declaring branch of handleContextNamespace: a new NamespaceEntry
   * under v, the namespace cursor on it, and, when the text before the last
   * `.` is a registered key, the new entry among that entry's nested
   * namespaces. A missing parent or a name without `.` is skipped in silence.
   */
  method DeclareNamespace(v: string, cur: Cursors, doc: Documentation)
    requires doc.Valid()
    modifies cur`currentName, cur`currentClassOrNamespace, doc.filterSet
    modifies Only(EntryAt(doc, ParentName(v)))
    ensures doc.Valid()
    ensures old(doc.Keys()) <= doc.Keys()
    ensures var e := doc.GetEntry(v);
            e != null && fresh(e) && e.variant == NamespaceVariant && e.name == v &&
            doc.filterSet.entriesMap == old(doc.filterSet.entriesMap)[v := e] &&
            doc.filterSet.entries == AddByName(old(doc.filterSet.entries), e)
    ensures cur.currentName == old(cur.currentName)[NAMESPACE := v]
    ensures cur.currentClassOrNamespace == Some(NAMESPACE)
    ensures var p := old(EntryAt(doc, ParentName(v)));
            p != null ==>
              (old(p.nestedNamespaces).Some? ==>
                 p.nestedNamespaces == Some(AddByName(old(p.nestedNamespaces).value, doc.GetEntry(v)))) &&
              (old(p.nestedNamespaces).None? ==> p.nestedNamespaces.None?)
    ensures Grown(doc)
  {
    var e := new Entry.NamespaceEntry(v);
    var parent := EntryAt(doc, ParentName(v));
    doc.AddEntry(e);
    cur.SetCurrentName(NAMESPACE, v);
    NamespaceWord();
    cur.SetCurrentClassOrNamespace("namespace");
    var period := LastIndexOf(v, '.');
    if period >= 0 {
      assert doc.GetEntry(v[..period]) == parent;
      if parent != null {
        parent.AddNestedNamespace(doc.GetEntry(v));
      }
    }
  }

  /** What handleContextNamespace may change: the parent of a declared name, or the current namespace. */
  function NamespaceTarget(line: string, cur: Cursors, doc: Documentation): (r: Entry?)
    reads cur`currentName, cur`currentClassOrMethod, cur`currentClassOrNamespace, doc, doc.filterSet
    ensures r != null ==> r in doc.Touchable()
  {
    if Declares(line, "namespace") then EntryAt(doc, ParentName(ParseAnnotation(line).value.value))
    else EntryAt(doc, cur.CurrentName(NAMESPACE))
  }

  /**
   * What handleContextNamespace does, t being NamespaceTarget before the
   * call: `@namespace X` as DeclareNamespace, t being the parent; any other
   * line is appended to the description of t, the current namespace, and a
   * missing t throws.
   */
  twostate predicate NamespaceHandled(line: string, t: Entry?, cur: Cursors, doc: Documentation, o: Outcome)
    reads cur`currentName, cur`currentClassOrMethod, cur`currentClassOrNamespace, doc, doc.filterSet, Only(t)
  {
    (Declares(line, "namespace") ==>
       var v := ParseAnnotation(line).value.value;
       var e := doc.GetEntry(v);
       o == Done && e != null && fresh(e) && e.variant == NamespaceVariant && e.name == v &&
       doc.filterSet.entriesMap == old(doc.filterSet.entriesMap)[v := e] &&
       doc.filterSet.entries == AddByName(old(doc.filterSet.entries), e) &&
       cur.currentName == old(cur.currentName)[NAMESPACE := v] &&
       cur.currentClassOrMethod == old(cur.currentClassOrMethod) &&
       cur.currentClassOrNamespace == Some(NAMESPACE) &&
       (t != null && old(t.nestedNamespaces).Some? ==>
          t.nestedNamespaces == Some(AddByName(old(t.nestedNamespaces).value, e))) &&
       (t != null && old(t.nestedNamespaces).None? ==> t.nestedNamespaces.None?)) &&
    (!Declares(line, "namespace") ==>
       CursorsKept(cur) && unchanged(doc.filterSet) &&
       (t == null ==> o == Stopped(NullDereference)) &&
       (t != null ==> o == Done && t.description == Appended(old(t.description), line)))
  }

  /** handleContextNamespace(line), as NamespaceHandled says. */
  method HandleContextNamespace(line: string, cur: Cursors, doc: Documentation) returns (o: Outcome)
    requires doc.Valid()
    modifies cur`currentName, cur`currentClassOrNamespace, doc.filterSet
    modifies Only(NamespaceTarget(line, cur, doc))
    ensures doc.Valid()
    ensures old(doc.Keys()) <= doc.Keys()
    ensures NamespaceHandled(line, old(NamespaceTarget(line, cur, doc)), cur, doc, o)
    ensures Grown(doc)
  {
    var ann := ParseAnnotation(line);
    if ann.Some? && ann.value.kind == "namespace" {
      DeclareNamespace(ann.value.value, cur, doc);
      return Done;
    }
    var entry := EntryAt(doc, cur.CurrentName(NAMESPACE));
    if entry == null {
      return Stopped(NullDereference);
    }
    entry.AppendToDescription(line);
    o := Done;
  }

  /**
   * What handleContextConstructor does, parent being the current class's
   * entry before the call: it never creates an entry. `@constructor v`
   * appends v to the parent's constructor entry and sets
   * CONSTRUCTOR.currentName to the class name; any other line is appended
   * as it stands. A missing class or constructor entry throws.
   */
  twostate predicate ConstructorHandled(line: string, parent: Entry?, cur: Cursors, doc: Documentation, o: Outcome)
    reads cur`currentName, cur`currentClassOrMethod, cur`currentClassOrNamespace, doc, doc.filterSet, Only(ConstructorOf(parent))
  {
    var c := ConstructorOf(parent);
    unchanged(doc.filterSet) &&
    cur.currentClassOrMethod == old(cur.currentClassOrMethod) &&
    cur.currentClassOrNamespace == old(cur.currentClassOrNamespace) &&
    (c == null ==> o == Stopped(NullDereference) && CursorsKept(cur)) &&
    (c != null && Declares(line, "constructor") ==>
       o == Done && c.description == Appended(old(c.description), ParseAnnotation(line).value.value) &&
       cur.currentName == old(cur.currentName)[CONSTRUCTOR := parent.name]) &&
    (c != null && !Declares(line, "constructor") ==>
       o == Done && c.description == Appended(old(c.description), line) && CursorsKept(cur))
  }

  /** handleContextConstructor(line), as ConstructorHandled says. */
  method HandleContextConstructor(line: string, cur: Cursors, doc: Documentation) returns (o: Outcome)
    modifies cur`currentName, Only(ClassConstructor(cur, doc))
    ensures ConstructorHandled(line, old(EntryAt(doc, cur.CurrentName(CLASS))), cur, doc, o)
  {
    var parent := EntryAt(doc, cur.CurrentName(CLASS));
    var ann := ParseAnnotation(line);
    if parent == null || parent.constructorEntry == null {
      return Stopped(NullDereference);
    }
    var entry := parent.constructorEntry;
    if ann.Some? && ann.value.kind == "constructor" {
      entry.AppendToDescription(ann.value.value);
      cur.SetCurrentName(CONSTRUCTOR, parent.name);
    } else {
      entry.AppendToDescription(line);
    }
    o := Done;
  }

  /** The parameter lookup throws before the line is parsed: no method cursor, or a class cursor with no class name. */
  predicate ParamLookupThrows(cur: Cursors)
    reads cur`currentName, cur`currentClassOrMethod, cur`currentClassOrNamespace
  {
    cur.currentClassOrMethod.None? ||
    (cur.currentClassOrMethod == Some(CLASS) && cur.CurrentName(CLASS).None?)
  }

  /**
   * The entry a parameter line is added to: the current class's constructor
   * entry when the class-or-method cursor is CLASS, else the entry filed
   * under `CLASS.currentName + "." + method.currentName` (a null name reads
   * "null", as Java's string concatenation writes it).
   */
  function ParamTarget(cur: Cursors, doc: Documentation): (r: Entry?)
    reads cur`currentName, cur`currentClassOrMethod, cur`currentClassOrNamespace, doc, doc.filterSet
    ensures r != null ==> !ParamLookupThrows(cur)
    ensures r != null ==> r in doc.Touchable()
  {
    if ParamLookupThrows(cur) then null
    else if cur.currentClassOrMethod == Some(CLASS) then ClassConstructor(cur, doc)
    else doc.GetEntryUnder(TextOf(cur.CurrentName(CLASS)), TextOf(cur.CurrentName(cur.currentClassOrMethod.value)))
  }

  /**
   * What handleContextParam does, t being ParamTarget before the call: it
   * parses `{type} name : description` and appends the Parameter to t's
   * parameter list (a target with no list ignores it). Lookup, parse and
   * null errors stop the run in the order the Java evaluates them.
   */
  twostate predicate ParamHandled(line: string, t: Entry?, cur: Cursors, doc: Documentation, o: Outcome)
    reads cur`currentName, cur`currentClassOrMethod, cur`currentClassOrNamespace, doc, doc.filterSet, Only(t), if t != null && t.parameters.Some? then set p | p in t.parameters.value else {}
  {
    CursorsKept(cur) && unchanged(doc.filterSet) &&
    (old(ParamLookupThrows(cur)) ==> o == Stopped(NullDereference)) &&
    (!old(ParamLookupThrows(cur)) && ParseParam(line).Fail? ==> o == Stopped(ParseParam(line).failure)) &&
    (!old(ParamLookupThrows(cur)) && ParseParam(line).Ok? ==>
       var pt := ParseParam(line).value;
       (t == null ==> o == Stopped(NullDereference)) &&
       (t != null ==>
          o == Done &&
          (old(t.parameters).None? ==> t.parameters.None?) &&
          (old(t.parameters).Some? ==>
             t.parameters.Some? && |t.parameters.value| == |old(t.parameters).value| + 1 &&
             t.parameters.value[..|old(t.parameters).value|] == old(t.parameters).value &&
             var p := t.parameters.value[|old(t.parameters).value|];
             p.name == pt.name && p.argType == pt.argType && p.description == pt.description)))
  }

  /** handleContextParam(line), as ParamHandled says. */
  method HandleContextParam(line: string, cur: Cursors, doc: Documentation) returns (o: Outcome)
    modifies Only(ParamTarget(cur, doc))
    ensures ParamHandled(line, old(ParamTarget(cur, doc)), cur, doc, o)
  {
    if ParamLookupThrows(cur) {
      return Stopped(NullDereference);
    }
    var target := ParamTarget(cur, doc);
    var pt := ParseParam(line);
    if pt.Fail? {
      return Stopped(pt.failure);
    }
    var param := new Parameter(pt.value.name, pt.value.argType, pt.value.description);
    if target == null {
      return Stopped(NullDereference);
    }
    target.AddParameter(param);
    o := Done;
  }

  /** The words that declare a method-like entry. */
  predicate MethodWord(w: string) {
    w == "staticmethod" || w == "instancemethod" || w == "event"
  }

  /** Each of them names its constant, so setCurrentClassOrMethod takes it. */
  lemma MethodWordResolves(w: string)
    requires MethodWord(w)
    ensures ValueOf(Upper(w)).Some?
  {
    if w == "staticmethod" {
      WordResolves(w, STATICMETHOD);
    } else if w == "instancemethod" {
      WordResolves(w, INSTANCEMETHOD);
    } else {
      WordResolves(w, EVENT);
    }
  }

  /** The line declares a method, event or static method. */
  predicate MethodDeclaration(line: string) {
    ParseAnnotation(line).Some? && MethodWord(ParseAnnotation(line).value.kind)
  }

  /** On a declaration line, a character other than `@` and blank that is not in the word lies in the value. */
  lemma InValue(line: string, c: char)
    requires ParseAnnotation(line).Some? && ' ' in line && c in line && c != '@' && c != ' '
    requires c !in ParseAnnotation(line).value.kind
    ensures c in ParseAnnotation(line).value.value
  {
    var pair := ParseAnnotation(line).value;
    assert line == "@" + pair.kind + " " + pair.value;
  }

  /** v split at its first c: the owner key before it and the member name after it, as `P#m` and `P.n` are read. */
  function SplitAtFirst(v: string, c: char): (r: (string, string))
    requires c in v
    ensures r.0 + [c] + r.1 == v && c !in r.0
  {
    var i := IndexOf(v, c);
    assert v == v[..i] + [v[i]] + v[i + 1..];
    (v[..i], v[i + 1..])
  }

  /**
   * The word, the owner key and the method name a declaration
   * `@word owner#name` gives; None for a line that declares no method or
   * has no `#`.
   */
  function DeclaredMethod(line: string): (r: Option<(string, string, string)>)
    ensures r.Some? <==> MethodDeclaration(line) && '#' in line
    ensures r.Some? ==> r.value.0 == ParseAnnotation(line).value.kind && MethodWord(r.value.0)
    ensures r.Some? ==> "@" + r.value.0 + " " + r.value.1 + "#" + r.value.2 == line
    ensures r.Some? ==> '#' !in r.value.1
  {
    if MethodDeclaration(line) && '#' in line then
      var pair := ParseAnnotation(line).value;
      PoundInValue(line, pair.kind, pair.value);
      var parts := SplitAtFirst(pair.value, '#');
      Regroup(pair.kind, parts.0, parts.1);
      Some((pair.kind, parts.0, parts.1))
    else None
  }

  /** A `#` on a method declaration line is in its value: the words hold none. */
  lemma PoundInValue(line: string, w: string, v: string)
    requires MethodWord(w) && ParseAnnotation(line) == Some(AnnotationPair(w, v)) && '#' in line
    ensures '#' in v
  {
    MethodWordShape(w);
    assert ' ' in line;
    InValue(line, '#');
  }

  /** The method words are non-empty and hold no `#`. */
  lemma MethodWordShape(w: string)
    requires MethodWord(w)
    ensures |w| > 0 && '#' !in w
  {
    if w == "staticmethod" {
    } else if w == "instancemethod" {
    } else {
      assert w == "event";
    }
  }

  /** `@w a#b` read as the word and the value `a#b`. */
  lemma Regroup(w: string, a: string, b: string)
    ensures "@" + w + " " + (a + ['#'] + b) == "@" + w + " " + a + "#" + b
  {
  }

  /**
   * What declaring `owner#name` does once the owner p is found: a new
   * method entry m of the kind, named name, among p's methods and filed
   * under `p.name + "." + name` (the top-level set untouched); the kind's
   * currentName is name and the class-or-method cursor is the word's constant.
   */
  twostate predicate MethodFiled(p: Entry, name: string, kind: Kind, w: string, cur: Cursors, doc: Documentation)
    reads p, cur`currentName, cur`currentClassOrMethod, doc, doc.filterSet
  {
    var m := doc.GetEntryUnder(p.name, name);
    m != null && fresh(m) && m.variant == MethodVariant && m.annotation == kind && m.name == name &&
    doc.filterSet.entriesMap == old(doc.filterSet.entriesMap)[GenerateKey(p.name, name) := m] &&
    doc.filterSet.entries == old(doc.filterSet.entries) &&
    (old(p.methods).Some? ==> p.methods == Some(AddByName(old(p.methods).value, m))) &&
    (old(p.methods).None? ==> p.methods.None?) &&
    cur.currentName == old(cur.currentName)[kind := name] &&
    cur.currentClassOrMethod == ValueOf(Upper(w)) && cur.currentClassOrMethod.Some?
  }

  /** A new method among its parent's methods and filed under `parent.name`. */
  method FileMethod(parent: Entry, m: Entry, doc: Documentation)
    requires doc.Valid()
    modifies parent`methods, doc.filterSet
    ensures doc.Valid()
    ensures doc.filterSet.entriesMap == old(doc.filterSet.entriesMap)[GenerateKey(parent.name, m.name) := m]
    ensures doc.filterSet.entries == old(doc.filterSet.entries)
    ensures old(parent.methods).Some? ==> parent.methods == Some(AddByName(old(parent.methods).value, m))
    ensures old(parent.methods).None? ==> parent.methods.None?
    ensures doc.Touchable() <= old(doc.Touchable()) + Own(m)
  {
    parent.AddMethod(m);
    doc.AddEntryUnder(parent.name, m);
  }

  /**
   * The declaring branch of handleContextMethod for `owner#name`: a new
   * method entry of the handler's kind among the owner's methods, filed
   * under `owner.name`, with the kind's currentName and the class-or-method
   * cursor on it. A missing owner throws.
   */
  method DeclareMethod(owner: string, name: string, kind: Kind, w: string, cur: Cursors, doc: Documentation)
    returns (o: Outcome)
    requires doc.Valid() && MethodWord(w)
    modifies cur`currentName, cur`currentClassOrMethod, doc.filterSet, Only(doc.GetEntry(owner))
    ensures doc.Valid()
    ensures old(doc.Keys()) <= doc.Keys()
    ensures old(doc.GetEntry(owner)) == null ==>
              o == Stopped(NullDereference) && unchanged(cur) && unchanged(doc.filterSet)
    ensures var p := old(doc.GetEntry(owner));
            p != null ==> o == Done && MethodFiled(p, name, kind, w, cur, doc)
    ensures Grown(doc)
  {
    var parent := doc.GetEntry(owner);
    var m := new Entry.MethodEntry(kind, name);
    if parent == null {
      return Stopped(NullDereference);
    }
    FileMethod(parent, m, doc);
    cur.SetCurrentName(kind, name);
    MethodWordResolves(w);
    cur.SetCurrentClassOrMethod(w);
    GrownBy(doc, m);
    o := Done;
  }

  /** What handleContextMethod may change: the owner of a declared method, or the current method's entry. */
  function MethodTarget(line: string, kind: Kind, cur: Cursors, doc: Documentation): (r: Entry?)
    reads cur`currentName, cur`currentClassOrMethod, cur`currentClassOrNamespace, doc, doc.filterSet
    ensures r != null ==> r in doc.Touchable()
  {
    if cur.CurrentName(CLASS).None? then null
    else if DeclaredMethod(line).Some? then doc.GetEntry(DeclaredMethod(line).value.1)
    else if MethodDeclaration(line) then null
    else
      var parent := doc.GetEntry(cur.CurrentName(CLASS).value);
      if parent == null then null else doc.GetEntryUnder(parent.name, TextOf(cur.CurrentName(kind)))
  }

  /**
   * What handleContextMethod(line, kind) does, t being MethodTarget before
   * the call. The class lookup comes first and throws without a class name.
   * A declaration `owner#name` goes to DeclareMethod, t being the owner; one
   * without `#` does nothing. Any other line is appended to t, the entry
   * under `class.kind-currentName`, and a missing t is caught and ignored.
   */
  twostate predicate MethodHandled(line: string, kind: Kind, t: Entry?, cur: Cursors, doc: Documentation, o: Outcome)
    reads cur`currentName, cur`currentClassOrMethod, cur`currentClassOrNamespace, doc, doc.filterSet, Only(t)
  {
    (old(cur.CurrentName(CLASS)).None? ==>
       o == Stopped(NullDereference) && CursorsKept(cur) && unchanged(doc.filterSet)) &&
    (old(cur.CurrentName(CLASS)).Some? && MethodDeclaration(line) && '#' !in line ==>
       o == Done && CursorsKept(cur) && unchanged(doc.filterSet)) &&
    (old(cur.CurrentName(CLASS)).Some? && DeclaredMethod(line).Some? ==>
       var d := DeclaredMethod(line).value;
       cur.currentClassOrNamespace == old(cur.currentClassOrNamespace) &&
       (t == null ==> o == Stopped(NullDereference) && CursorsKept(cur) && unchanged(doc.filterSet)) &&
       (t != null ==> o == Done && MethodFiled(t, d.2, kind, d.0, cur, doc))) &&
    (old(cur.CurrentName(CLASS)).Some? && !MethodDeclaration(line) ==>
       var parent := old(doc.GetEntry(cur.CurrentName(CLASS).value));
       CursorsKept(cur) && unchanged(doc.filterSet) &&
       (parent == null ==> o == Stopped(NullDereference)) &&
       (parent != null ==> o == Done && (t != null ==> t.description == Appended(old(t.description), line))))
  }

  /**
   * handleContextMethod(line, kind), behind handleContextStaticMethod,
   * handleContextInstanceMethod and handleContextEvent, as MethodHandled says.
   */
  method HandleContextMethod(line: string, kind: Kind, cur: Cursors, doc: Documentation) returns (o: Outcome)
    requires doc.Valid()
    modifies cur`currentName, cur`currentClassOrMethod, doc.filterSet, Only(MethodTarget(line, kind, cur, doc))
    ensures doc.Valid()
    ensures old(doc.Keys()) <= doc.Keys()
    ensures MethodHandled(line, kind, old(MethodTarget(line, kind, cur, doc)), cur, doc, o)
    ensures Grown(doc)
  {
    ghost var t := MethodTarget(line, kind, cur, doc);
    var ann := ParseAnnotation(line);
    var className := cur.CurrentName(CLASS);
    if className.None? {
      o := Stopped(NullDereference);
      assert MethodHandled(line, kind, t, cur, doc, o);
      return;
    }
    var parent := doc.GetEntry(className.value);
    if ann.Some? && MethodWord(ann.value.kind) {
      var declared := DeclaredMethod(line);
      if declared.Some? {
        assert t == doc.GetEntry(declared.value.1);
        assert MethodDeclaration(line) && '#' in line;
        o := DeclareMethod(declared.value.1, declared.value.2, kind, declared.value.0, cur, doc);
      } else {
        o := Done;
        assert MethodHandled(line, kind, t, cur, doc, o);
      }
      return;
    }
    o := AppendToMember(line, kind, parent, cur, doc);
    assert MethodHandled(line, kind, t, cur, doc, o);
  }

  /** The continuation branch of handleContextMethod: the line joins the description of the entry under `parent.name.kind-currentName`. */
  method AppendToMember(line: string, kind: Kind, parent: Entry?, cur: Cursors, doc: Documentation) returns (o: Outcome)
    modifies Only(if parent == null then null else doc.GetEntryUnder(parent.name, TextOf(cur.CurrentName(kind))))
    ensures var e := if parent == null then null else old(doc.GetEntryUnder(parent.name, TextOf(cur.CurrentName(kind))));
            (parent == null ==> o == Stopped(NullDereference)) &&
            (parent != null ==> o == Done && (e != null ==> e.description == Appended(old(e.description), line)))
  {
    if parent == null {
      return Stopped(NullDereference);
    }
    var entry := doc.GetEntryUnder(parent.name, TextOf(cur.CurrentName(kind)));
    if entry != null {
      entry.AppendToDescription(line);
    }
    o := Done;
  }

  /** The property handlers' first lookup throws: no class-or-namespace cursor, or no name for it. */
  predicate PropertyLookupThrows(cur: Cursors)
    reads cur`currentName, cur`currentClassOrMethod, cur`currentClassOrNamespace
  {
    cur.currentClassOrNamespace.None? || cur.CurrentName(cur.currentClassOrNamespace.value).None?
  }

  /** The entry of the current class or namespace, null when none is filed under its name. */
  function PropertyParent(cur: Cursors, doc: Documentation): (r: Entry?)
    reads cur`currentName, cur`currentClassOrMethod, cur`currentClassOrNamespace, doc, doc.filterSet
    requires !PropertyLookupThrows(cur)
    ensures r != null ==> r in doc.Touchable()
  {
    doc.GetEntry(cur.CurrentName(cur.currentClassOrNamespace.value).value)
  }

  /**
   * The owner key and property name of a `@staticproperty owner.name`
   * line; None when the line is no such declaration or its value has no `.`.
   */
  function DeclaredProperty(line: string): (r: Option<(string, string)>)
    ensures r.Some? <==> Declares(line, "staticproperty") && '.' in ParseAnnotation(line).value.value
    ensures r.Some? ==> r.value.0 + "." + r.value.1 == ParseAnnotation(line).value.value && '.' !in r.value.0
  {
    if Declares(line, "staticproperty") && '.' in ParseAnnotation(line).value.value then
      Some(SplitAtFirst(ParseAnnotation(line).value.value, '.'))
    else None
  }

  /**
   * What declaring `owner.name` does once the owner p is found: a new
   * property entry of the kind, named name, among p's properties and filed
   * under `p.name + "." + name`; STATICPROPERTY.currentName is name and the
   * class-or-method cursor is STATICPROPERTY.
   */
  twostate predicate PropertyFiled(p: Entry, name: string, kind: Kind, cur: Cursors, doc: Documentation)
    reads p, cur`currentName, cur`currentClassOrMethod, doc, doc.filterSet
  {
    var e := doc.GetEntryUnder(p.name, name);
    e != null && fresh(e) && e.variant == PropertyVariant && e.annotation == kind && e.name == name &&
    doc.filterSet.entriesMap == old(doc.filterSet.entriesMap)[GenerateKey(p.name, name) := e] &&
    doc.filterSet.entries == old(doc.filterSet.entries) &&
    (old(p.properties).Some? ==> p.properties == Some(AddByName(old(p.properties).value, e))) &&
    (old(p.properties).None? ==> p.properties.None?) &&
    cur.currentName == old(cur.currentName)[STATICPROPERTY := name] &&
    cur.currentClassOrMethod == Some(STATICPROPERTY)
  }

  /** A new property among its parent's properties and filed under `parent.name`. */
  method FileProperty(parent: Entry, e: Entry, doc: Documentation)
    requires doc.Valid()
    modifies parent`properties, doc.filterSet
    ensures doc.Valid()
    ensures doc.filterSet.entriesMap == old(doc.filterSet.entriesMap)[GenerateKey(parent.name, e.name) := e]
    ensures doc.filterSet.entries == old(doc.filterSet.entries)
    ensures old(parent.properties).Some? ==> parent.properties == Some(AddByName(old(parent.properties).value, e))
    ensures old(parent.properties).None? ==> parent.properties.None?
    ensures doc.Touchable() <= old(doc.Touchable()) + Own(e)
  {
    parent.AddProperty(e);
    doc.AddEntryUnder(parent.name, e);
  }

  /** The declaring branch of handleContextProperty for `owner.name`; a missing owner throws. */
  method DeclareProperty(parent: Entry?, name: string, kind: Kind, cur: Cursors, doc: Documentation)
    returns (o: Outcome)
    requires doc.Valid()
    modifies cur`currentName, cur`currentClassOrMethod, doc.filterSet, Only(parent)
    ensures doc.Valid()
    ensures old(doc.Keys()) <= doc.Keys()
    ensures parent == null ==> o == Stopped(NullDereference) && unchanged(cur) && unchanged(doc.filterSet)
    ensures parent != null ==> o == Done && PropertyFiled(parent, name, kind, cur, doc)
    ensures cur.currentClassOrNamespace == old(cur.currentClassOrNamespace)
    ensures Grown(doc)
  {
    var e := new Entry.PropertyEntry(kind, name);
    if parent == null {
      return Stopped(NullDereference);
    }
    FileProperty(parent, e, doc);
    PointAtStaticProperty(cur, name);
    GrownBy(doc, e);
    o := Done;
  }

  /** STATICPROPERTY.setCurrentName(name) then setCurrentClassOrMethod("staticproperty"). */
  method PointAtStaticProperty(cur: Cursors, name: string)
    modifies cur`currentName, cur`currentClassOrMethod
    ensures cur.currentName == old(cur.currentName)[STATICPROPERTY := name]
    ensures cur.currentClassOrMethod == Some(STATICPROPERTY)
  {
    cur.SetCurrentName(STATICPROPERTY, name);
    StaticPropertyWord();
    cur.SetCurrentClassOrMethod("staticproperty");
  }

  /**
   * The default and the description an instance property takes from the
   * parsed description: with a `{@default ...}` token (Line.containsDefault),
   * what handleDefault stores and returns; otherwise "" and the text as it is.
   */
  function SplitDefault(d: string): (r: Result<(string, string)>)
    ensures !ContainsDefault(d) ==> r == Ok(("", d))
    ensures ContainsDefault(d) && DefaultValue(d).Fail? ==> r == Fail(DefaultValue(d).failure)
    ensures ContainsDefault(d) && DefaultValue(d).Ok? ==>
              (r.Ok? <==> DefaultPrefix(d).Ok?) &&
              (r.Ok? ==> r.value == (DefaultValue(d).value, DefaultPrefix(d).value))
    ensures ContainsDefault(d) && DefaultValue(d).Ok? && r.Fail? ==> r.failure == IndexOutOfBounds
  {
    if !ContainsDefault(d) then Ok(("", d))
    else if DefaultValue(d).Fail? then Fail(DefaultValue(d).failure)
    else if DefaultPrefix(d).Fail? then Fail(IndexOutOfBounds)
    else Ok((DefaultValue(d).value, DefaultPrefix(d).value))
  }

  /**
   * What an instance-property line does to the parent's properties: a new
   * INSTANCEPROPERTY entry with the parsed name and type, the default and a
   * description opened with `<p>`, added by name (so a taken name leaves
   * the set as it was). The entry is never filed in the registry.
   */
  twostate predicate PropertyAdded(parent: Entry, pt: ParamText, dflt: string, description: string)
    reads parent, PropertyValues(parent)
  {
    (old(parent.properties).None? ==> parent.properties.None?) &&
    (old(parent.properties).Some? && pt.name in old(parent.properties).value ==>
       parent.properties == old(parent.properties)) &&
    (old(parent.properties).Some? && pt.name !in old(parent.properties).value ==>
       parent.properties.Some? &&
       parent.properties.value.Keys == old(parent.properties).value.Keys + {pt.name} &&
       (forall n :: n in old(parent.properties).value ==> parent.properties.value[n] == old(parent.properties).value[n]) &&
       var e := parent.properties.value[pt.name];
       fresh(e) && e.variant == PropertyVariant && e.annotation == INSTANCEPROPERTY && e.name == pt.name &&
       e.typeName == Some(pt.argType) && e.default == Some(dflt) && e.description == "<p>" + description)
  }

  /**
   * The new PropertyEntry of an instance-property line: the parsed name and
   * type, the default split off the description by handleDefault, and the
   * rest appended as its description.
   */
  method NewInstanceProperty(pt: ParamText) returns (r: Result<Entry>)
    ensures r.Ok? <==> SplitDefault(pt.description).Ok?
    ensures r.Fail? ==> r.failure == SplitDefault(pt.description).failure
    ensures r.Ok? ==>
              var parts := SplitDefault(pt.description).value;
              var e := r.value;
              fresh(e) && e.variant == PropertyVariant && e.annotation == INSTANCEPROPERTY && e.name == pt.name &&
              e.typeName == Some(pt.argType) && e.default == Some(parts.0) && e.description == "<p>" + parts.1
  {
    var property := new Entry.PropertyEntry(INSTANCEPROPERTY, pt.name);
    property.SetType(pt.argType);
    var description := pt.description;
    if ContainsDefault(description) {
      var d := HandleDefault(description, property);
      if d.Fail? {
        return Fail(d.failure);
      }
      description := d.value;
    }
    property.AppendToDescription(description);
    r := Ok(property);
  }

  /**
   * The instance-property branch of handleContextProperty: parseParam, the
   * new PropertyEntry, and the entry added to the parent's properties. A
   * parse error, a failing handleDefault or a missing parent stops the run,
   * in that order.
   */
  twostate predicate InstancePropertyAdded(line: string, parent: Entry?, o: Outcome)
    reads Only(parent), PropertyValues(parent)
  {
    (ParseParam(line).Fail? ==> o == Stopped(ParseParam(line).failure)) &&
    (ParseParam(line).Ok? && SplitDefault(ParseParam(line).value.description).Fail? ==>
       o == Stopped(SplitDefault(ParseParam(line).value.description).failure)) &&
    (ParseParam(line).Ok? && SplitDefault(ParseParam(line).value.description).Ok? ==>
       var pt := ParseParam(line).value;
       var parts := SplitDefault(pt.description).value;
       (parent == null ==> o == Stopped(NullDereference)) &&
       (parent != null ==> o == Done && PropertyAdded(parent, pt, parts.0, parts.1)))
  }

  /** The instance-property branch of handleContextProperty, as InstancePropertyAdded says. */
  method AddInstanceProperty(line: string, parent: Entry?) returns (o: Outcome)
    modifies Only(parent)
    ensures InstancePropertyAdded(line, parent, o)
  {
    var parsed := ParseParam(line);
    if parsed.Fail? {
      return Stopped(parsed.failure);
    }
    var property := NewInstanceProperty(parsed.value);
    if property.Fail? {
      return Stopped(property.failure);
    }
    if parent == null {
      return Stopped(NullDereference);
    }
    parent.AddProperty(property.value);
    o := Done;
  }

  /** The property a static-property line describes: the one under `parent.name + "." + member.currentName`. */
  function DescribedProperty(parent: Entry?, cur: Cursors, doc: Documentation): (r: Entry?)
    reads cur`currentName, cur`currentClassOrMethod, cur`currentClassOrNamespace, doc, doc.filterSet
    ensures r != null ==> r in doc.Touchable()
  {
    if parent == null || cur.currentClassOrMethod.None? then null
    else doc.GetEntryUnder(parent.name, TextOf(cur.CurrentName(cur.currentClassOrMethod.value)))
  }

  /**
   * What a static-property continuation line `{T} rest` does to e, the
   * property filed under `parent.name + "." + member.currentName` (com
   * being the member cursor): a parse error, then a missing parent or
   * member cursor, then a missing property (System.exit(-200)) stop the
   * run; otherwise e's type becomes T, where it has a type, and the trimmed
   * rest is appended to its description.
   */
  twostate predicate StaticPropertyDescribed(line: string, parent: Entry?, com: Option<Kind>, e: Entry?, o: Outcome)
    reads Only(e)
  {
    var parsed := ParseStaticProperty(line);
    (parsed.Fail? ==> o == Stopped(parsed.failure)) &&
    (parsed.Ok? && (parent == null || com.None?) ==> o == Stopped(NullDereference)) &&
    (parsed.Ok? && parent != null && com.Some? && e == null ==> o == Stopped(Exit(-200))) &&
    (parsed.Ok? && parent != null && com.Some? && e != null ==>
       o == Done &&
       (old(e.typeName).Some? ==> e.typeName == Some(parsed.value.0)) &&
       (old(e.typeName).None? ==> e.typeName.None?) &&
       e.description == Appended(old(e.description), parsed.value.1))
  }

  /** The static-property continuation branch of handleContextProperty. */
  method DescribeStaticProperty(line: string, parent: Entry?, cur: Cursors, doc: Documentation) returns (o: Outcome)
    modifies Only(DescribedProperty(parent, cur, doc))
    ensures StaticPropertyDescribed(line, parent, old(cur.currentClassOrMethod), old(DescribedProperty(parent, cur, doc)), o)
  {
    var typeDescription := ParseStaticProperty(line);
    if typeDescription.Fail? {
      return Stopped(typeDescription.failure);
    }
    if parent == null || cur.currentClassOrMethod.None? {
      return Stopped(NullDereference);
    }
    var property := DescribedProperty(parent, cur, doc);
    if property == null {
      return Stopped(Exit(-200));
    }
    TypeAndDescribe(property, typeDescription.value.0, typeDescription.value.1);
    o := Done;
  }

  /** setType(type) then appendToDescription(rest) on a property entry. */
  method TypeAndDescribe(e: Entry, t: string, rest: string)
    modifies e
    ensures old(e.typeName).Some? ==> e.typeName == Some(t)
    ensures old(e.typeName).None? ==> e.typeName.None?
    ensures e.description == Appended(old(e.description), rest)
  {
    e.SetType(t);
    e.AppendToDescription(rest);
  }

  /** What handleContextProperty may change: the declared owner, the parent, or the property under the current member. */
  function PropertyTarget(line: string, kind: Kind, cur: Cursors, doc: Documentation): (r: Entry?)
    reads cur`currentName, cur`currentClassOrMethod, cur`currentClassOrNamespace, doc, doc.filterSet
    ensures r != null ==> r in doc.Touchable()
  {
    if PropertyLookupThrows(cur) then null
    else if Declares(line, "staticproperty") then
      if DeclaredProperty(line).Some? then doc.GetEntry(DeclaredProperty(line).value.0) else null
    else if kind == INSTANCEPROPERTY then PropertyParent(cur, doc)
    else DescribedProperty(PropertyParent(cur, doc), cur, doc)
  }

  /** The entries in e's properties, which an added instance property joins. */
  function PropertyValues(e: Entry?): set<Entry>
    reads Only(e)
  {
    if e == null || e.properties.None? then {} else e.properties.value.Values
  }

  /**
   * What handleContextProperty(line, kind) does, t being PropertyTarget
   * before the call. After the parent lookup: `@staticproperty P.n`
   * declares, t being P (no `.` is System.exit(-1)); on the instance kind
   * any other line adds an instance property to t, the parent; on the
   * static kind any other line gives t, the property under the current
   * member, its type and appends the rest, and a missing t is
   * System.exit(-200).
   */
  twostate predicate PropertyHandled(line: string, kind: Kind, t: Entry?, cur: Cursors, doc: Documentation, o: Outcome)
    reads cur`currentName, cur`currentClassOrMethod, cur`currentClassOrNamespace, doc, doc.filterSet, Only(t), PropertyValues(t)
  {
    (old(PropertyLookupThrows(cur)) ==>
       o == Stopped(NullDereference) && CursorsKept(cur) && unchanged(doc.filterSet)) &&
    (!old(PropertyLookupThrows(cur)) && Declares(line, "staticproperty") ==>
       PropertyDeclared(line, kind, t, cur, doc, o)) &&
    (!old(PropertyLookupThrows(cur)) && !Declares(line, "staticproperty") ==>
       CursorsKept(cur) && unchanged(doc.filterSet) &&
       PropertyContinued(line, kind, old(PropertyParent(cur, doc)), old(cur.currentClassOrMethod), t, o))
  }

  /**
   * A `@staticproperty` line, t being its owner's entry: a value without
   * `.` is System.exit(-1); `owner.name` with a missing owner throws, and
   * otherwise files the property as PropertyFiled says.
   */
  twostate predicate PropertyDeclared(line: string, kind: Kind, t: Entry?, cur: Cursors, doc: Documentation, o: Outcome)
    reads cur`currentName, cur`currentClassOrMethod, cur`currentClassOrNamespace, doc, doc.filterSet, Only(t)
  {
    (DeclaredProperty(line).None? ==>
       o == Stopped(Exit(-1)) && CursorsKept(cur) && unchanged(doc.filterSet)) &&
    (DeclaredProperty(line).Some? ==>
       cur.currentClassOrNamespace == old(cur.currentClassOrNamespace) &&
       (t == null ==> o == Stopped(NullDereference) && CursorsKept(cur) && unchanged(doc.filterSet)) &&
       (t != null ==> o == Done && PropertyFiled(t, DeclaredProperty(line).value.1, kind, cur, doc)))
  }

  /** The owner's entry of a `@staticproperty owner.name` line, null when there is none. */
  function DeclaredOwner(line: string, doc: Documentation): (r: Entry?)
    reads doc, doc.filterSet
    ensures r != null ==> r in doc.Touchable()
  {
    if DeclaredProperty(line).Some? then doc.GetEntry(DeclaredProperty(line).value.0) else null
  }

  /** The declaring branch of handleContextProperty, as PropertyDeclared says. */
  method DeclarePropertyLine(line: string, kind: Kind, cur: Cursors, doc: Documentation) returns (o: Outcome)
    requires doc.Valid()
    modifies cur`currentName, cur`currentClassOrMethod, doc.filterSet
    modifies Only(DeclaredOwner(line, doc))
    ensures doc.Valid()
    ensures old(doc.Keys()) <= doc.Keys()
    ensures PropertyDeclared(line, kind, old(DeclaredOwner(line, doc)), cur, doc, o)
    ensures Grown(doc)
  {
    var declared := DeclaredProperty(line);
    if declared.None? {
      return Stopped(Exit(-1));
    }
    o := DeclareProperty(doc.GetEntry(declared.value.0), declared.value.1, kind, cur, doc);
  }

  /**
   * A line that declares nothing: on the instance kind it adds an instance
   * property to t, the parent; on the static kind it describes t, the
   * property under the member cursor com.
   */
  twostate predicate PropertyContinued(line: string, kind: Kind, parent: Entry?, com: Option<Kind>, t: Entry?, o: Outcome)
    reads Only(t), PropertyValues(t)
  {
    (kind == INSTANCEPROPERTY ==> InstancePropertyAdded(line, t, o)) &&
    (kind != INSTANCEPROPERTY ==> StaticPropertyDescribed(line, parent, com, t, o))
  }

  /** The branches of handleContextProperty that declare nothing, as PropertyContinued says. */
  method ContinueProperty(line: string, kind: Kind, parent: Entry?, cur: Cursors, doc: Documentation) returns (o: Outcome)
    modifies Only(if kind == INSTANCEPROPERTY then parent else DescribedProperty(parent, cur, doc))
    ensures PropertyContinued(line, kind, parent, old(cur.currentClassOrMethod),
                              old(if kind == INSTANCEPROPERTY then parent else DescribedProperty(parent, cur, doc)), o)
  {
    if kind == INSTANCEPROPERTY {
      o := AddInstanceProperty(line, parent);
    } else {
      o := DescribeStaticProperty(line, parent, cur, doc);
    }
  }

  /**
   * handleContextProperty(line, kind), behind handleContextStaticProperty
   * and handleContextInstanceProperty, as PropertyHandled says.
   */
  method HandleContextProperty(line: string, kind: Kind, cur: Cursors, doc: Documentation) returns (o: Outcome)
    requires doc.Valid()
    modifies cur`currentName, cur`currentClassOrMethod, doc.filterSet, Only(PropertyTarget(line, kind, cur, doc))
    ensures doc.Valid()
    ensures old(doc.Keys()) <= doc.Keys()
    ensures PropertyHandled(line, kind, old(PropertyTarget(line, kind, cur, doc)), cur, doc, o)
    ensures Grown(doc)
  {
    if PropertyLookupThrows(cur) {
      return Stopped(NullDereference);
    }
    var parent := PropertyParent(cur, doc);
    var ann := ParseAnnotation(line);
    if ann.Some? && ann.value.kind == "staticproperty" {
      o := DeclarePropertyLine(line, kind, cur, doc);
    } else {
      o := ContinueProperty(line, kind, parent, cur, doc);
    }
  }

  /** What handleContextReturn may change: the entry under `CLASS.currentName + "." + method.currentName`. */
  function ReturnTarget(line: string, cur: Cursors, doc: Documentation): (r: Entry?)
    reads cur`currentName, cur`currentClassOrMethod, cur`currentClassOrNamespace, doc, doc.filterSet
    ensures r != null ==> r in doc.Touchable()
  {
    if Declares(line, "return") && ParseReturn(line).Ok? && cur.currentClassOrMethod.Some? then
      doc.GetEntryUnder(TextOf(cur.CurrentName(CLASS)), TextOf(cur.CurrentName(cur.currentClassOrMethod.value)))
    else null
  }

  /**
   * What handleContextReturn does, e being ReturnTarget before the call:
   * only `@return {T} : D` acts. It replaces the return value of e, the
   * current method's entry, where it has one, by a new ReturnValue(T, D);
   * continuation lines are ignored.
   */
  twostate predicate ReturnHandled(line: string, e: Entry?, cur: Cursors, doc: Documentation, o: Outcome)
    reads cur`currentName, cur`currentClassOrMethod, cur`currentClassOrNamespace, doc, doc.filterSet, Only(e), if e != null && e.returnValue != null then {e.returnValue} else {}
  {
    CursorsKept(cur) && unchanged(doc.filterSet) &&
    (!Declares(line, "return") ==> o == Done) &&
    (Declares(line, "return") && ParseReturn(line).Fail? ==> o == Stopped(ParseReturn(line).failure)) &&
    (Declares(line, "return") && ParseReturn(line).Ok? && old(cur.currentClassOrMethod).None? ==>
       o == Stopped(NullDereference)) &&
    (Declares(line, "return") && ParseReturn(line).Ok? && old(cur.currentClassOrMethod).Some? ==>
       var parsed := ParseReturn(line).value;
       (e == null ==> o == Stopped(NullDereference)) &&
       (e != null && old(e.returnValue) == null ==> o == Done && e.returnValue == null) &&
       (e != null && old(e.returnValue) != null ==>
          o == Done && e.returnValue != null && fresh(e.returnValue) &&
          e.returnValue.typeName == parsed.0 && e.returnValue.description == parsed.1))
  }

  /** handleContextReturn(line), as ReturnHandled says. */
  method HandleContextReturn(line: string, cur: Cursors, doc: Documentation) returns (o: Outcome)
    modifies Only(ReturnTarget(line, cur, doc))
    ensures ReturnHandled(line, old(ReturnTarget(line, cur, doc)), cur, doc, o)
  {
    var ann := ParseAnnotation(line);
    if !(ann.Some? && ann.value.kind == "return") {
      return Done;
    }
    var parsed := ParseReturn(line);
    if parsed.Fail? {
      return Stopped(parsed.failure);
    }
    if cur.currentClassOrMethod.None? {
      return Stopped(NullDereference);
    }
    var entry := doc.GetEntryUnder(TextOf(cur.CurrentName(CLASS)), TextOf(cur.CurrentName(cur.currentClassOrMethod.value)));
    if entry == null {
      return Stopped(NullDereference);
    }
    var returnValue := new ReturnValue(parsed.value.0, parsed.value.1);
    entry.SetReturnValue(returnValue);
    o := Done;
  }
}
