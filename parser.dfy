/**
 * The parse loop: every line of every input file is trimmed and classified.
 * A useful comment may switch the current annotation and is then handed to
 * the handler of the current annotation; a code line resets the annotation
 * to NONE, after adding the instance property its trailing comment may
 * declare. The first failure ends the run.
 *
 * Annotation.current is read and set by this loop alone (through
 * handleAnnotation and setToNoContext), so it is threaded through the loop
 * as a value: each step takes the annotation current before the line and
 * returns the one current after it.
 */
module Parser {
  import opened Common
  import opened Strings
  import opened Annotations
  import opened Lines
  import opened Entries
  import opened Registry
  import opened ParserHelper

  /**
   * What the switch does with a comment line when the current annotation is
   * k: the handler of k, as its own predicate says, each target taken in the
   * state before the call. A null annotation throws, and an annotation the
   * switch does not list changes nothing.
   */
  twostate predicate Handled(k: Option<Kind>, line: string, cur: Cursors, doc: Documentation, o: Outcome)
    reads *
  {
    match k
    case None =>
      o == Stopped(NullDereference) && CursorsKept(cur) && unchanged(doc.filterSet) && unchanged(old(doc.Touchable()))
    case Some(CLASS) => ClassHandled(line, old(EntryAt(doc, cur.CurrentName(CLASS))), cur, doc, o)
    case Some(NAMESPACE) => NamespaceHandled(line, old(NamespaceTarget(line, cur, doc)), cur, doc, o)
    case Some(CONSTRUCTOR) => ConstructorHandled(line, old(EntryAt(doc, cur.CurrentName(CLASS))), cur, doc, o)
    case Some(PARAM) => ParamHandled(line, old(ParamTarget(cur, doc)), cur, doc, o)
    case Some(STATICMETHOD) =>
      MethodHandled(line, STATICMETHOD, old(MethodTarget(line, STATICMETHOD, cur, doc)), cur, doc, o)
    case Some(INSTANCEMETHOD) =>
      MethodHandled(line, INSTANCEMETHOD, old(MethodTarget(line, INSTANCEMETHOD, cur, doc)), cur, doc, o)
    case Some(EVENT) => MethodHandled(line, EVENT, old(MethodTarget(line, EVENT, cur, doc)), cur, doc, o)
    case Some(STATICPROPERTY) =>
      PropertyHandled(line, STATICPROPERTY, old(PropertyTarget(line, STATICPROPERTY, cur, doc)), cur, doc, o)
    case Some(RETURN) => ReturnHandled(line, old(ReturnTarget(line, cur, doc)), cur, doc, o)
    case Some(_) => o == Done && CursorsKept(cur) && unchanged(doc.filterSet) && unchanged(old(doc.Touchable()))
  }

  /** The switch on the current annotation k in parse(File), as Handled says. */
  method Dispatch(k: Option<Kind>, line: string, cur: Cursors, doc: Documentation) returns (o: Outcome)
    requires doc.Valid()
    modifies cur, doc.filterSet, doc.Touchable()
    ensures doc.Valid()
    ensures old(doc.Keys()) <= doc.Keys()
    ensures Handled(k, line, cur, doc, o)
    ensures Grown(doc)
  {
    if k.None? {
      return Stopped(NullDereference);
    }
    match k.value
    case CLASS => o := HandleContextClass(line, cur, doc);
    case PARAM => o := HandleContextParam(line, cur, doc);
    case STATICMETHOD => o := HandleContextMethod(line, STATICMETHOD, cur, doc);
    case INSTANCEMETHOD => o := HandleContextMethod(line, INSTANCEMETHOD, cur, doc);
    case STATICPROPERTY => o := HandleContextProperty(line, STATICPROPERTY, cur, doc);
    case RETURN => o := HandleContextReturn(line, cur, doc);
    case CONSTRUCTOR => o := HandleContextConstructor(line, cur, doc);
    case EVENT => o := HandleContextMethod(line, EVENT, cur, doc);
    case NAMESPACE => o := HandleContextNamespace(line, cur, doc);
    case _ => o := Done;
  }

  /**
   * What a useful comment line does, text being the line after `//` and k
   * the annotation current before it: an annotation that cannot be checked
   * stops the run; a new annotation becomes current and its handler takes
   * the line; with no annotation, k's handler takes it, after a standalone
   * instance property, if the line has that shape, has gone to the instance
   * property handler.
   */
  twostate predicate CommentLineHandled(text: string, lineNum: int, file: string, k: Option<Kind>,
                                        new next: Option<Kind>, cur: Cursors, doc: Documentation, o: Outcome)
    reads *
  {
    var tok := CheckForAnnotation(text, lineNum, file);
    (tok.Fail? ==>
       o == Stopped(tok.failure) && next == k &&
       unchanged(cur) && unchanged(doc.filterSet) && unchanged(old(doc.Touchable()))) &&
    (tok.Ok? && tok.value != "" ==> next == Resolve(tok.value) && Handled(next, text, cur, doc, o)) &&
    (tok == Ok("") && !IsStandaloneInstanceProperty(text) ==> next == k && Handled(k, text, cur, doc, o)) &&
    (tok == Ok("") && IsStandaloneInstanceProperty(text) ==> next == k)
  }

  /** The branch of parse(File) for a useful comment line, as CommentLineHandled says. */
  method HandleCommentLine(text: string, lineNum: int, file: string, k: Option<Kind>, cur: Cursors, doc: Documentation)
    returns (o: Outcome, next: Option<Kind>)
    requires doc.Valid()
    modifies cur, doc.filterSet, doc.Touchable()
    ensures doc.Valid()
    ensures old(doc.Keys()) <= doc.Keys()
    ensures CommentLineHandled(text, lineNum, file, k, next, cur, doc, o)
    ensures Grown(doc)
  {
    next := k;
    var annotation := CheckForAnnotation(text, lineNum, file);
    if annotation.Fail? {
      return Stopped(annotation.failure), next;
    }
    if annotation.value != "" {
      next := Resolve(annotation.value);
    } else if IsStandaloneInstanceProperty(text) {
      o := HandleContextProperty(text, INSTANCEPROPERTY, cur, doc);
      if o.Stopped? {
        return;
      }
    }
    o := Dispatch(next, text, cur, doc);
  }

  /** setToNoContext(): the annotation named NONE becomes current. */
  function NoContext(): (r: Option<Kind>)
    ensures r == Some(NONE)
  {
    assert Upper("none") == "NONE";
    Resolve("none")
  }

  /**
   * What any other line does, k being the annotation current before it:
   * one with an instance property in its comment adds it, text being the
   * comment trimmed, and the annotation is then NONE unless text is itself
   * a comment; any other line changes nothing but the annotation, which is
   * NONE unless the line is a comment. A comment line without letters or
   * digits and without that shape thus changes nothing at all.
   */
  twostate predicate OtherLineHandled(line: string, k: Option<Kind>, new next: Option<Kind>,
                                      cur: Cursors, doc: Documentation, o: Outcome)
    reads *
  {
    (IsInstanceProperty(line) ==>
       var text := TrimComment(line).value;
       PropertyHandled(text, INSTANCEPROPERTY, old(PropertyTarget(text, INSTANCEPROPERTY, cur, doc)), cur, doc, o) &&
       next == (if o.Done? && !IsComment(text) then Some(NONE) else k)) &&
    (!IsInstanceProperty(line) ==>
       o == Done && CursorsKept(cur) && unchanged(doc.filterSet) && unchanged(old(doc.Touchable())) &&
       next == (if IsComment(line) then k else Some(NONE)))
  }

  /** The branch of parse(File) for every line that is not a useful comment, as OtherLineHandled says. */
  method HandleOtherLine(line: string, k: Option<Kind>, cur: Cursors, doc: Documentation)
    returns (o: Outcome, next: Option<Kind>)
    requires doc.Valid()
    modifies cur, doc.filterSet, doc.Touchable()
    ensures doc.Valid()
    ensures old(doc.Keys()) <= doc.Keys()
    ensures OtherLineHandled(line, k, next, cur, doc, o)
    ensures Grown(doc)
  {
    next := k;
    var text := line;
    if IsInstanceProperty(line) {
      text := TrimComment(line).value;
      o := HandleContextProperty(text, INSTANCEPROPERTY, cur, doc);
      if o.Stopped? {
        return;
      }
    }
    if !IsComment(text) {
      next := NoContext();
    }
    o := Done;
  }

  /**
   * One trimmed line of parse(File), useful telling whether it holds a
   * letter or a digit: a useful comment or any other line, k being the
   * annotation current before it and next the one after.
   */
  method ProcessLine(line: string, useful: bool, lineNum: int, file: string, k: Option<Kind>,
                     cur: Cursors, doc: Documentation) returns (o: Outcome, next: Option<Kind>)
    requires doc.Valid() && useful == Useful(line)
    modifies cur, doc.filterSet, doc.Touchable()
    ensures doc.Valid()
    ensures old(doc.Keys()) <= doc.Keys()
    ensures LineHandled(line, lineNum, file, k, next, cur, doc, o)
    ensures Grown(doc)
  {
    if IsComment(line) && useful {
      o, next := HandleCommentLine(TrimComment(line).value, lineNum, file, k, cur, doc);
    } else {
      o, next := HandleOtherLine(line, k, cur, doc);
    }
  }

  /** What ProcessLine does with a trimmed line: the comment branch or the other branch. */
  twostate predicate LineHandled(line: string, lineNum: int, file: string, k: Option<Kind>,
                                 new next: Option<Kind>, cur: Cursors, doc: Documentation, o: Outcome)
    reads *
  {
    if IsComment(line) && Useful(line) then
      CommentLineHandled(TrimComment(line).value, lineNum, file, k, next, cur, doc, o)
    else
      OtherLineHandled(line, k, next, cur, doc, o)
  }

  /** A line that reaches no handler: not a useful comment, and no instance property in its comment. */
  predicate Passive(raw: string) {
    var line := Trim(raw);
    !(IsComment(line) && Useful(line)) && !IsInstanceProperty(line)
  }

  /**
   * The body of the loop of parse(File): the line is trimmed, then
   * processed with the value of isUseful, which Lines.IsUseful computes
   * by its scan. The effect is ProcessLine's, as LineHandled says; a
   * passive line changes nothing but the annotation, which a code line
   * resets to NONE.
   */
  method ParseLine(raw: string, lineNum: int, file: string, k: Option<Kind>, cur: Cursors, doc: Documentation)
    returns (o: Outcome, next: Option<Kind>)
    requires doc.Valid()
    modifies cur, doc.filterSet, doc.Touchable()
    ensures doc.Valid()
    ensures old(doc.Keys()) <= doc.Keys()
    ensures Passive(raw) ==>
              o == Done && CursorsKept(cur) && unchanged(doc.filterSet) && unchanged(old(doc.Touchable())) &&
              next == (if IsComment(Trim(raw)) then k else Some(NONE))
    ensures LineHandled(Trim(raw), lineNum, file, k, next, cur, doc, o)
    ensures Grown(doc)
  {
    o, next := ProcessLine(Trim(raw), Useful(Trim(raw)), lineNum, file, k, cur, doc);
  }

  /** Some line among the first n is code, not a comment. */
  predicate HasCode(lines: seq<string>, n: nat)
    requires n <= |lines|
  {
    exists j :: 0 <= j < n && !IsComment(Trim(lines[j]))
  }

  /** One more line has code exactly when the lines before it have, or it is code itself. */
  lemma HasCodeStep(lines: seq<string>, n: nat)
    requires n < |lines|
    ensures HasCode(lines, n + 1) <==> HasCode(lines, n) || !IsComment(Trim(lines[n]))
  {
    if HasCode(lines, n + 1) && IsComment(Trim(lines[n])) {
      var j :| 0 <= j < n + 1 && !IsComment(Trim(lines[j]));
      assert j < n;
    }
  }

  /**
   * parse(File) on the file's lines, numbered from 1, k being the
   * annotation current before the file and next the one after: each line
   * in order, up to the first that stops the run. A file of passive lines
   * leaves the registry and the handlers' cursors as they were, and leaves
   * the annotation NONE if it has a code line and k otherwise.
   */
  method ParseFile(lines: seq<string>, file: string, k: Option<Kind>, cur: Cursors, doc: Documentation)
    returns (o: Outcome, next: Option<Kind>)
    requires doc.Valid()
    modifies cur, doc.filterSet, doc.Touchable()
    ensures doc.Valid()
    ensures old(doc.Keys()) <= doc.Keys()
    ensures (forall i :: 0 <= i < |lines| ==> Passive(lines[i])) ==>
              o == Done && CursorsKept(cur) && unchanged(doc.filterSet) && unchanged(old(doc.Touchable())) &&
              next == (if HasCode(lines, |lines|) then Some(NONE) else k)
    ensures Grown(doc)
  {
    next := k;
    var i := 0;
    while i < |lines|
      invariant 0 <= i <= |lines|
      invariant doc.Valid()
      invariant old(doc.Keys()) <= doc.Keys()
      invariant (forall j :: 0 <= j < |lines| ==> Passive(lines[j])) ==>
                  CursorsKept(cur) && unchanged(doc.filterSet) && unchanged(old(doc.Touchable())) &&
                  next == (if HasCode(lines, i) then Some(NONE) else k)
      invariant Grown(doc)
    {
      o, next := ParseLine(lines[i], i + 1, file, next, cur, doc);
      if o.Stopped? {
        return;
      }
      HasCodeStep(lines, i);
      i := i + 1;
    }
    o := Done;
  }

  /** An input file: its name and its lines as the reader returns them. */
  datatype InputFile = InputFile(name: string, lines: seq<string>)

  /**
   * parse(): every input file in order, with one registry and one set of
   * cursors, the annotation carried from each file into the next and null
   * at the start; the first failure ends the run. Inputs of passive lines
   * only leave the registry as it was.
   */
  method Parse(inputs: seq<InputFile>, cur: Cursors, doc: Documentation) returns (o: Outcome)
    requires doc.Valid()
    modifies cur, doc.filterSet, doc.Touchable()
    ensures doc.Valid()
    ensures old(doc.Keys()) <= doc.Keys()
    ensures (forall f, i :: f in inputs && 0 <= i < |f.lines| ==> Passive(f.lines[i])) ==>
              o == Done && CursorsKept(cur) && unchanged(doc.filterSet) && unchanged(old(doc.Touchable()))
    ensures Grown(doc)
  {
    var current: Option<Kind> := None;
    var n := 0;
    while n < |inputs|
      invariant 0 <= n <= |inputs|
      invariant doc.Valid()
      invariant old(doc.Keys()) <= doc.Keys()
      invariant (forall f, i :: f in inputs && 0 <= i < |f.lines| ==> Passive(f.lines[i])) ==>
                  CursorsKept(cur) && unchanged(doc.filterSet) && unchanged(old(doc.Touchable()))
      invariant Grown(doc)
    {
      o, current := ParseFile(inputs[n].lines, inputs[n].name, current, cur, doc);
      if o.Stopped? {
        return;
      }
      n := n + 1;
    }
    o := Done;
  }
}
