/**
 * The per-line helpers of the parser: classification of a source line
 * (comment, useful, annotation, instance property, default value), the
 * removal of the comment marker, the annotation token check, and link
 * expansion with the reserved tags `p` and `tt`.
 */
module Lines {
  import opened Common
  import opened Strings
  import opened Annotations
  import opened LinkScan

  /** The tag names handleLinks copies through instead of turning into links. */
  const Reserved: set<string> := {"p", "/p", "tt", "/tt"}

  /** handleLinks(line) with the reserved set above. */
  method HandleLinks(line: string) returns (r: Result<string>)
    ensures r == ExpandLinks(line, Reserved)
    ensures '<' !in line ==> r == Ok(line)
  {
    r := LinkScan.HandleLinks(line, Reserved);
    if '<' !in line {
      NoOpenUnchanged(line, Reserved);
    }
  }

  /** A reserved tag on a line with no stray `>` before it is copied through unchanged. */
  lemma ReservedTagKept(pre: string, w: string, post: string)
    requires w in Reserved && '>' !in pre && '<' !in post
    ensures ExpandLinks(pre + "<" + w + ">" + post, Reserved) == Ok(pre + "<" + w + ">" + post)
  {
    assert '<' !in w && '>' !in w;
    SingleSpan(Reserved, pre, w, post);
    assert pre + Tag(Reserved, w) + post == pre + "<" + w + ">" + post;
  }

  /** Any other name between angle brackets becomes a link to its page. */
  lemma NameBecomesLink(pre: string, w: string, post: string)
    requires w !in Reserved && '<' !in w && '>' !in w && '>' !in pre && '<' !in post
    ensures ExpandLinks(pre + "<" + w + ">" + post, Reserved) == Ok(pre + LinkText(w) + post)
  {
    SingleSpan(Reserved, pre, w, post);
  }

  /** A whole `<tt>...</tt>` pair survives: both tags are reserved. */
  lemma TeletypeKept(pre: string, x: string, post: string)
    requires '>' !in pre && '<' !in x && '>' !in x && '<' !in post
    ensures ExpandLinks(pre + "<tt>" + x + "</tt>" + post, Reserved) == Ok(pre + "<tt>" + x + "</tt>" + post)
  {
    ReservedThenSpan(Reserved, pre, "tt", x, "/tt", post);
    assert Tag(Reserved, "/tt") == "</tt>";
    assert pre + "<tt>" + x + "</tt>" + post == pre + "<" + "tt" + ">" + x + "<" + "/tt" + ">" + post;
    assert pre + "<" + "tt" + ">" + x + "</tt>" + post == pre + "<tt>" + x + "</tt>" + post;
  }

  /** isComment(line): the line starts with two slashes. */
  function IsComment(line: string): (r: bool)
    ensures r <==> |line| >= 2 && line[0] == '/' && line[1] == '/'
  {
    StartsWith(line, "//")
  }

  /** The line holds a letter or a digit. */
  predicate Useful(line: string) {
    exists i :: 0 <= i < |line| && IsLetterOrDigit(line[i])
  }

  /** isUseful(line): scans for the first letter or digit and stops there. */
  method IsUseful(line: string) returns (r: bool)
    ensures r <==> Useful(line)
  {
    var i := 0;
    while i < |line|
      invariant 0 <= i <= |line|
      invariant forall k :: 0 <= k < i ==> !IsLetterOrDigit(line[k])
    {
      if IsLetterOrDigit(line[i]) {
        return true;
      }
      i := i + 1;
    }
    return false;
  }

  /** Rules drawn with slashes, dashes, equals signs, stars or spaces carry no information. */
  lemma {:induction false} RuleNotUseful(line: string)
    requires forall i :: 0 <= i < |line| ==> line[i] in "/-=* "
    ensures !Useful(line)
  {
    forall i | 0 <= i < |line|
      ensures !IsLetterOrDigit(line[i])
    {
      assert line[i] in "/-=* ";
    }
  }

  /**
   * isStandaloneInstanceProperty(line): a `{` comes before the first `}`,
   * which comes before the first `:`. An unmatched brace gives false.
   */
  function IsStandaloneInstanceProperty(line: string): (r: bool)
    ensures r <==> exists a, b, k :: 0 <= a < b < k < |line| && line[a] == '{' && line[b] == '}' && line[k] == ':' &&
                                     '}' !in line[..b] && ':' !in line[..k]
  {
    var a := IndexOf(line, '{');
    var b := IndexOf(line, '}');
    var k := IndexOf(line, ':');
    var r := a > -1 && b > a && k > b;
    assert r ==> line[a] == '{' && line[b] == '}' && line[k] == ':' && '}' !in line[..b] && ':' !in line[..k];
    r
  }

  /** isInstanceProperty(line): the same shape, read from the first `//` on. */
  function IsInstanceProperty(line: string): (r: bool)
    ensures r <==> IndexOfSub(line, "//") >= 0 && IsStandaloneInstanceProperty(line[IndexOfSub(line, "//")..])
  {
    var c := IndexOfSub(line, "//");
    var a := IndexOfFrom(line, '{', c);
    var b := IndexOfFrom(line, '}', c);
    var k := IndexOfFrom(line, ':', c);
    var r := c > -1 && a > 0 && b > 0 && k > 0 && c < a && a < b && b < k;
    if c >= 0 then
      FromComment(line, c);
      r
    else r
  }

  /** The brace and colon tests made from c are the standalone tests on the suffix from c. */
  lemma FromComment(line: string, c: nat)
    requires OccursAt(line, "//", c)
    ensures (IndexOfFrom(line, '{', c) > 0 && IndexOfFrom(line, '}', c) > 0 && IndexOfFrom(line, ':', c) > 0 &&
             c < IndexOfFrom(line, '{', c) < IndexOfFrom(line, '}', c) < IndexOfFrom(line, ':', c))
            == IsStandaloneInstanceProperty(line[c..])
  {
    assert line[c] == '/' && line[c + 1] == '/';
    ShiftedIndex(line, c, '{');
    ShiftedIndex(line, c, '}');
    ShiftedIndex(line, c, ':');
  }

  /** Searching from c is searching the suffix from c, shifted by c. */
  lemma ShiftedIndex(line: string, c: nat, x: char)
    requires c + 2 <= |line| && line[c] == '/' && x != '/'
    ensures IndexOfFrom(line, x, c) == (if IndexOf(line[c..], x) < 0 then -1 else c + IndexOf(line[c..], x))
    ensures IndexOf(line[c..], x) != 0
  {
  }

  /**
   * trim(line): the text after the first `//`, without surrounding white
   * space. With no `//` the first character is dropped instead, and an empty
   * line makes substring(1, 0) throw.
   */
  function TrimComment(line: string): (r: Result<string>)
    ensures r.Fail? <==> line == []
    ensures r.Ok? ==> Trimmed(r.value) && |r.value| < |line|
  {
    var c := IndexOfSub(line, "//");
    if !SubstringOk(line, c + 2, |line|) then Fail(IndexOutOfBounds)
    else Ok(Trim(line[c + 2..]))
  }

  /** Trimming is bounded by the length it starts from. */
  lemma TrimShorter(s: string)
    ensures |Trim(s)| <= |s|
  {
  }

  /** With no `//` in pre and no `/` at its end, the first `//` of pre + `//` + rest is the one after pre. */
  lemma {:induction false} FirstMarker(pre: string, rest: string)
    requires forall i :: 0 <= i < |pre| - 1 ==> !(pre[i] == '/' && pre[i + 1] == '/')
    requires pre == [] || pre[|pre| - 1] != '/'
    ensures IndexOfSub(pre + "//" + rest, "//") == |pre|
  {
    var line := pre + "//" + rest;
    var p := |pre|;
    assert line[p] == '/' && line[p + 1] == '/';
    assert OccursAt(line, "//", p);
    forall i | 0 <= i < p
      ensures !OccursAt(line, "//", i)
    {
      assert line[i] == pre[i];
      if i + 1 < p {
        assert line[i + 1] == pre[i + 1];
      } else {
        assert line[i + 1] == '/';
      }
    }
  }

  /**
   * Everything up to the first `//` goes, and so does the white space
   * around the rest.
   */
  lemma TrimCommentAfterMarker(pre: string, lead: string, s: string, trail: string)
    requires forall i :: 0 <= i < |pre| - 1 ==> !(pre[i] == '/' && pre[i + 1] == '/')
    requires pre == [] || pre[|pre| - 1] != '/'
    requires Trimmed(s)
    requires forall i :: 0 <= i < |lead| ==> IsWhitespace(lead[i])
    requires forall i :: 0 <= i < |trail| ==> IsWhitespace(trail[i])
    ensures TrimComment(pre + "//" + lead + s + trail) == Ok(s)
  {
    var line := pre + "//" + lead + s + trail;
    assert line == pre + "//" + (lead + s + trail);
    FirstMarker(pre, lead + s + trail);
    assert line[|pre| + 2..] == lead + s + trail;
    TrimPadded(s, lead, trail);
  }

  /** isAnnotation(line): the line starts with `@`. */
  function IsAnnotation(line: string): (r: bool)
    ensures r <==> |line| > 0 && line[0] == '@'
  {
    StartsWith(line, "@")
  }

  /** No annotation name, canonical or alias, is empty. */
  lemma EmptyIsNotValid()
    ensures !IsValid("")
  {
    assert Upper("") == "";
  }

  /**
   * checkForAnnotation(line, lineNum, filename): "" for a line that is not
   * an annotation; otherwise the token between `@` and the first space,
   * which must exist and name an annotation.
   */
  function CheckForAnnotation(line: string, lineNum: int, file: string): (r: Result<string>)
    ensures !IsAnnotation(line) ==> r == Ok("")
    ensures IsAnnotation(line) && ' ' !in line ==> r == Fail(MissingAnnotationValue(line, lineNum, file))
    ensures IsAnnotation(line) && ' ' in line ==> (r.Ok? <==> IsValid(line[1..IndexOf(line, ' ')]))
    ensures IsAnnotation(line) && r.Ok? ==>
              r.value != "" && IsValid(r.value) && ' ' !in r.value &&
              1 + |r.value| < |line| && line[1..1 + |r.value|] == r.value && line[1 + |r.value|] == ' '
    ensures r.Fail? && r.failure.InvalidAnnotation? ==>
              !IsValid(r.failure.token) && r.failure.lineNum == lineNum && r.failure.file == file
  {
    if !IsAnnotation(line) then Ok("")
    else
      var space := IndexOf(line, ' ');
      if !SubstringOk(line, 1, space) then Fail(MissingAnnotationValue(line, lineNum, file))
      else
        var token := line[1..space];
        if !IsValid(token) then Fail(InvalidAnnotation(token, lineNum, file))
        else
          EmptyIsNotValid();
          Ok(token)
  }

  /** `@token rest` with a valid token and no space in it yields the token. */
  lemma AnnotationToken(token: string, rest: string, lineNum: int, file: string)
    requires IsValid(token) && ' ' !in token
    ensures CheckForAnnotation("@" + token + " " + rest, lineNum, file) == Ok(token)
  {
    var line := "@" + token + " " + rest;
    assert line[1 + |token|] == ' ';
    assert line[1..1 + |token|] == token;
    assert ' ' !in line[..1 + |token|] by {
      assert line[..1 + |token|] == "@" + token;
    }
    assert IndexOf(line, ' ') == 1 + |token|;
  }

  /**
   * containsDefault(line): `{@default` occurs and the last `}` lies after
   * its first occurrence.
   */
  function ContainsDefault(line: string): (r: bool)
    ensures r <==> exists p, q :: 0 <= p < q < |line| && OccursAt(line, "{@default", p) && line[q] == '}'
  {
    var posA := IndexOfSub(line, "{@default");
    var posB := LastIndexOf(line, '}');
    var r := posA > -1 && posB > posA;
    DefaultWitness(line);
    r
  }

  /** Any occurrence of `{@default` with a `}` after it makes the first-occurrence and last-brace test pass. */
  lemma DefaultWitness(line: string)
    ensures (exists p, q :: 0 <= p < q < |line| && OccursAt(line, "{@default", p) && line[q] == '}') ==>
            IndexOfSub(line, "{@default") > -1 && LastIndexOf(line, '}') > IndexOfSub(line, "{@default")
  {
    if exists p, q :: 0 <= p < q < |line| && OccursAt(line, "{@default", p) && line[q] == '}' {
      var p, q :| 0 <= p < q < |line| && OccursAt(line, "{@default", p) && line[q] == '}';
      var posA := IndexOfSub(line, "{@default");
      var posB := LastIndexOf(line, '}');
      assert posA != -1 && posA <= p;
      assert '}' in line;
      assert q <= posB;
    }
  }
}
