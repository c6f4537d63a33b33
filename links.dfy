/**
 * The link scanner shared by Line.handleLinks and LinkChecker.handleLinks:
 * one pass over the line that copies characters into a StringBuilder and,
 * on each `>` that closes a pending `<`, splices a link node over the span.
 * The two callers differ only in the set of reserved tag names, which is a
 * parameter here.
 *
 * The splice uses indices into the input line, not into the builder, so
 * once one link has been expanded the builder is longer than the input
 * prefix and later splices land at the wrong place; the model keeps this.
 */
module LinkScan {
  import opened Common
  import opened Strings
  import opened Dom

  /** The serialisation of `tt > a[href=name.html]` with text name. */
  function LinkText(name: string): string {
    "<tt><a href=\"" + name + ".html\">" + name + "</a></tt>"
  }

  /** What a closed span `<w>` turns into when the builder is in step with the input. */
  function Tag(reserved: set<string>, w: string): string {
    if w in reserved then "<" + w + ">" else LinkText(w)
  }

  /**
   * StringBuilder.replace(start, end, s): the characters in [start, end)
   * give way to s; an end beyond the length stands for the length.
   */
  function Replace(sb: string, start: int, end: int, s: string): (r: string)
    requires 0 <= start <= |sb| && start <= end
    ensures |r| == start + |s| + (if end < |sb| then |sb| - end else 0)
    ensures r[..start] == sb[..start] && r[start..start + |s|] == s
  {
    sb[..start] + s + sb[(if end < |sb| then end else |sb|)..]
  }

  /** The loop variables of handleLinks: the builder, the pending span and whether a `<` is pending. */
  datatype ScanState = ScanState(sb: string, start: int, end: int, containsStart: bool)

  /** Before index i: the span bounds lie in the scanned prefix and the builder is at least as long as it. */
  predicate Inv(i: int, st: ScanState) {
    0 <= st.start <= i && 0 <= st.end <= i && |st.sb| >= i
  }

  const Initial: ScanState := ScanState("", 0, 0, false)

  /**
   * One turn of the loop at index i. The only failure is the substring
   * that a stale `>` (one before the pending `<`) makes throw.
   */
  function Step(line: string, reserved: set<string>, i: nat, st: ScanState): (r: Result<ScanState>)
    requires i < |line| && Inv(i, st)
    ensures r.Ok? ==> Inv(i + 1, r.value)
  {
    var c := line[i];
    var containsStart := if c == '<' then true else st.containsStart;
    var start := if c == '<' then i else st.start;
    var end := if c != '<' && c == '>' then i else st.end;
    if containsStart && end > 0 then
      if !SubstringOk(line, start + 1, end) then Fail(IndexOutOfBounds)
      else
        var name := line[start + 1..end];
        var sb := if name !in reserved then Replace(st.sb, start, end, LinkText(name)) else st.sb + [c];
        Ok(ScanState(sb, 0, 0, false))
    else
      Ok(ScanState(st.sb + [c], start, end, containsStart))
  }

  /** The loop from index i on, starting in state st. */
  function ScanFrom(line: string, reserved: set<string>, i: nat, st: ScanState): Result<string>
    requires i <= |line| && Inv(i, st)
    decreases |line| - i, 1
  {
    if i == |line| then Ok(st.sb) else ScanOn(line, reserved, i, Step(line, reserved, i, st))
  }

  /** The loop after the turn at index i has produced r. */
  function ScanOn(line: string, reserved: set<string>, i: nat, r: Result<ScanState>): Result<string>
    requires i < |line| && (r.Ok? ==> Inv(i + 1, r.value))
    decreases |line| - i, 0
  {
    match r
    case Fail(f) => Fail(f)
    case Ok(next) => ScanFrom(line, reserved, i + 1, next)
  }

  /** handleLinks(line) for a given reserved set. */
  function ExpandLinks(line: string, reserved: set<string>): Result<string> {
    ScanFrom(line, reserved, 0, Initial)
  }

  /** The `tt` wrapper around the anchor of a link is the link text. */
  lemma LinkTextShape(name: string, inner: string)
    requires inner == AnchorText(name, name + ".html")
    ensures "<tt>" + inner + "</tt>" == LinkText(name)
  {
  }

  /** The node handleLinks builds for a link: `tt` holding an `a` with the name as text and href. */
  method NewLinkNode(name: string) returns (node: DOMNode)
    ensures fresh(node.Repr) && node.Valid()
    ensures node.ToString() == LinkText(name)
  {
    var a := NewAnchor(name, name + ".html");
    ghost var inner := a.ToString();
    node := new DOMNode("tt");
    node.AppendNode(a);
    RenderLastChild(node, [], a);
    assert node.OpeningTag(node.tagName) + node.text + RenderAll([]) == "<tt>";
    LinkTextShape(name, inner);
  }

  /** The loop of handleLinks; it throws exactly when the function fails. */
  method HandleLinks(line: string, reserved: set<string>) returns (r: Result<string>)
    ensures r == ExpandLinks(line, reserved)
  {
    var sb := "";
    var start := 0;
    var end := 0;
    var containsStart := false;
    var i := 0;
    while i < |line|
      invariant 0 <= i <= |line|
      invariant Inv(i, ScanState(sb, start, end, containsStart))
      invariant ScanFrom(line, reserved, i, ScanState(sb, start, end, containsStart)) == ExpandLinks(line, reserved)
    {
      ghost var before := ScanState(sb, start, end, containsStart);
      var c := line[i];
      if c == '<' {
        containsStart := true;
        start := i;
      } else if c == '>' {
        end := i;
      }
      if containsStart && end > 0 {
        if start + 1 > end {
          return Fail(IndexOutOfBounds);
        }
        var linkName := line[start + 1..end];
        if linkName !in reserved {
          var linkNode := NewLinkNode(linkName);
          var text := linkNode.ToString();
          sb := Replace(sb, start, end, text);
        } else {
          sb := sb + [c];
        }
        containsStart := false;
        start := 0;
        end := 0;
      } else {
        sb := sb + [c];
      }
      assert Step(line, reserved, i, before) == Ok(ScanState(sb, start, end, containsStart));
      i := i + 1;
    }
    return Ok(sb);
  }

  /**
   * A stretch without `>` and with no pending closer is copied as is; only
   * a `<` in it moves the pending start.
   */
  lemma {:induction false} CopyPlain(line: string, reserved: set<string>, i: nat, j: nat, st: ScanState)
    returns (start': int, containsStart': bool)
    requires i <= j <= |line| && Inv(i, st) && st.end == 0
    requires forall k :: i <= k < j ==> line[k] != '>'
    ensures 0 <= start' <= j
    ensures Inv(j, ScanState(st.sb + line[i..j], start', 0, containsStart'))
    ensures ScanFrom(line, reserved, i, st) == ScanFrom(line, reserved, j, ScanState(st.sb + line[i..j], start', 0, containsStart'))
    ensures (forall k :: i <= k < j ==> line[k] != '<') ==> start' == st.start && containsStart' == st.containsStart
    decreases j - i
  {
    if i == j {
      assert st.sb + line[i..j] == st.sb;
      start', containsStart' := st.start, st.containsStart;
    } else {
      var next := Step(line, reserved, i, st).value;
      assert next.sb == st.sb + [line[i]] && next.end == 0;
      start', containsStart' := CopyPlain(line, reserved, i + 1, j, next);
      assert st.sb + line[i..j] == next.sb + line[i + 1..j];
    }
  }

  /** The last index in [i, j) holding `>`, or e when there is none. */
  function LastCloser(line: string, i: nat, j: nat, e: int): (r: int)
    requires i <= j <= |line|
    ensures r == e || (i <= r < j && line[r] == '>')
    ensures forall k :: i <= k < j && line[k] == '>' ==> k <= r
    decreases j - i
  {
    if i == j then e
    else if line[j - 1] == '>' then j - 1
    else LastCloser(line, i, j - 1, e)
  }

  /** With no `<` pending and none ahead in [i, j), every character is copied and only `end` moves. */
  lemma {:induction false} CopyNoOpen(line: string, reserved: set<string>, i: nat, j: nat, st: ScanState)
    requires i <= j <= |line| && Inv(i, st) && !st.containsStart
    requires forall k :: i <= k < j ==> line[k] != '<'
    ensures Inv(j, ScanState(st.sb + line[i..j], st.start, LastCloser(line, i, j, st.end), false))
    ensures ScanFrom(line, reserved, i, st) ==
            ScanFrom(line, reserved, j, ScanState(st.sb + line[i..j], st.start, LastCloser(line, i, j, st.end), false))
    decreases j - i
  {
    if i == j {
      assert st.sb + line[i..j] == st.sb;
    } else {
      var next := Step(line, reserved, i, st).value;
      var e := if line[i] == '>' then i else st.end;
      assert next == ScanState(st.sb + [line[i]], st.start, e, false);
      CopyNoOpen(line, reserved, i + 1, j, next);
      assert st.sb + line[i..j] == next.sb + line[i + 1..j];
      LastCloserShift(line, i, j, st.end);
    }
  }

  /** Scanning [i, j) from e is scanning [i+1, j) from what index i leaves. */
  lemma {:induction false} LastCloserShift(line: string, i: nat, j: nat, e: int)
    requires i < j <= |line|
    ensures LastCloser(line, i, j, e) == LastCloser(line, i + 1, j, if line[i] == '>' then i else e)
    decreases j - i
  {
    if j - 1 > i && line[j - 1] != '>' {
      LastCloserShift(line, i, j - 1, e);
    }
  }

  /** A line without `<` comes back unchanged, whatever the reserved set. */
  lemma {:induction false} NoOpenUnchanged(line: string, reserved: set<string>)
    requires '<' !in line
    ensures ExpandLinks(line, reserved) == Ok(line)
  {
    CopyNoOpen(line, reserved, 0, |line|, Initial);
    assert "" + line[0..|line|] == line;
  }

  /** The builder once a span `<w>` opened at p has closed, given the builder sb up to the `>`. */
  function Closed(reserved: set<string>, sb: string, p: nat, w: string): string
    requires p <= |sb|
  {
    if w in reserved then sb + ">" else Replace(sb, p, p + 1 + |w|, LinkText(w))
  }

  /** A `<` with no closer pending opens a span. */
  lemma {:induction false} OpenStep(line: string, reserved: set<string>, p: nat, st: ScanState)
    requires p < |line| && Inv(p, st) && st.end == 0 && line[p] == '<'
    ensures Inv(p + 1, ScanState(st.sb + "<", p, 0, true))
    ensures ScanFrom(line, reserved, p, st) == ScanFrom(line, reserved, p + 1, ScanState(st.sb + "<", p, 0, true))
  {
    assert Step(line, reserved, p, st) == Ok(ScanState(st.sb + "<", p, 0, true));
  }

  /** A `>` after a pending `<` closes the span between them. */
  lemma {:induction false} CloseStep(line: string, reserved: set<string>, e: nat, st: ScanState)
    requires e < |line| && Inv(e, st) && st.containsStart && st.end == 0 && st.start < e && line[e] == '>'
    ensures Inv(e + 1, ScanState(Closed(reserved, st.sb, st.start, line[st.start + 1..e]), 0, 0, false))
    ensures ScanFrom(line, reserved, e, st) ==
            ScanFrom(line, reserved, e + 1, ScanState(Closed(reserved, st.sb, st.start, line[st.start + 1..e]), 0, 0, false))
  {
    CloseStepValue(line, reserved, e, st);
  }

  /** The turn at a `>` after a pending `<`, on its own. */
  lemma CloseStepValue(line: string, reserved: set<string>, e: nat, st: ScanState)
    requires e < |line| && Inv(e, st) && st.containsStart && st.end == 0 && st.start < e && line[e] == '>'
    ensures Step(line, reserved, e, st) == Ok(ScanState(Closed(reserved, st.sb, st.start, line[st.start + 1..e]), 0, 0, false))
  {
    var w := line[st.start + 1..e];
    assert st.start + 1 + |w| == e;
    if w in reserved {
      assert Closed(reserved, st.sb, st.start, w) == st.sb + [line[e]];
    } else {
      assert Closed(reserved, st.sb, st.start, w) == Replace(st.sb, st.start, e, LinkText(w));
    }
  }

  /**
   * A span read from a state with no closer pending: the stretch before the
   * `<` at p is copied, and the `>` at e splices in a link at the input
   * indices p..e, or copies a reserved span.
   */
  lemma {:induction false} Span(line: string, reserved: set<string>, i: nat, p: nat, e: nat, st: ScanState)
    requires Inv(i, st) && st.end == 0 && i <= p < e < |line|
    requires line[p] == '<' && line[e] == '>'
    requires forall k :: i <= k < e ==> line[k] != '>'
    requires forall k :: p < k < e ==> line[k] != '<'
    ensures Inv(e + 1, ScanState(Closed(reserved, st.sb + line[i..e], p, line[p + 1..e]), 0, 0, false))
    ensures ScanFrom(line, reserved, i, st) ==
            ScanFrom(line, reserved, e + 1, ScanState(Closed(reserved, st.sb + line[i..e], p, line[p + 1..e]), 0, 0, false))
  {
    var s1, c1 := CopyPlain(line, reserved, i, p, st);
    var st1 := ScanState(st.sb + line[i..p], s1, 0, c1);
    OpenStep(line, reserved, p, st1);
    var st2 := ScanState(st1.sb + "<", p, 0, true);
    var s3, c3 := CopyPlain(line, reserved, p + 1, e, st2);
    var st3 := ScanState(st2.sb + line[p + 1..e], p, 0, true);
    SliceAround(st.sb, line, i, p, e);
    CloseStep(line, reserved, e, st3);
  }

  lemma SliceAround(sb: string, line: string, i: nat, p: nat, e: nat)
    requires i <= p < e <= |line| && line[p] == '<'
    ensures sb + line[i..p] + "<" + line[p + 1..e] == sb + line[i..e]
  {
    assert line[i..e] == line[i..p] + [line[p]] + line[p + 1..e];
  }

  /** From a state with nothing pending, a rest without `<` is copied to the end. */
  lemma {:induction false} CopyRest(line: string, reserved: set<string>, k: nat, sb: string)
    requires k <= |line| && Inv(k, ScanState(sb, 0, 0, false))
    requires '<' !in line[k..]
    ensures ScanFrom(line, reserved, k, ScanState(sb, 0, 0, false)) == Ok(sb + line[k..])
  {
    assert forall j :: k <= j < |line| ==> line[j] == line[k..][j - k];
    CopyNoOpen(line, reserved, k, |line|, ScanState(sb, 0, 0, false));
    assert line[k..|line|] == line[k..];
  }

  /** When the builder is in step with the input, the span becomes exactly its tag. */
  lemma InStepClosed(reserved: set<string>, line: string, p: nat, e: nat)
    requires p < e <= |line| && line[p] == '<'
    ensures Closed(reserved, line[..e], p, line[p + 1..e]) == line[..p] + Tag(reserved, line[p + 1..e])
  {
    var w := line[p + 1..e];
    if w in reserved {
      calc {
        Closed(reserved, line[..e], p, w);
        line[..e] + ">";
        { assert line[..e] == line[..p] + "<" + w; }
        line[..p] + "<" + w + ">";
        line[..p] + Tag(reserved, w);
      }
    } else {
      calc {
        Closed(reserved, line[..e], p, w);
        line[..e][..p] + LinkText(w) + line[..e][e..];
        { assert line[..e][..p] == line[..p]; assert line[..e][e..] == []; }
        line[..p] + LinkText(w);
        line[..p] + Tag(reserved, w);
      }
    }
  }

  /**
   * A span read while the builder holds exactly the input before index i:
   * the span becomes its tag, and the builder stays in step with the input.
   */
  lemma {:induction false} SyncedSpan(line: string, reserved: set<string>, i: nat, p: nat, e: nat)
    requires i <= p < e < |line|
    requires line[p] == '<' && line[e] == '>'
    requires forall k :: i <= k < e ==> line[k] != '>'
    requires forall k :: p < k < e ==> line[k] != '<'
    ensures Inv(e + 1, ScanState(line[..p] + Tag(reserved, line[p + 1..e]), 0, 0, false))
    ensures ScanFrom(line, reserved, i, ScanState(line[..i], 0, 0, false)) ==
            ScanFrom(line, reserved, e + 1, ScanState(line[..p] + Tag(reserved, line[p + 1..e]), 0, 0, false))
  {
    Span(line, reserved, i, p, e, ScanState(line[..i], 0, 0, false));
    assert line[..i] + line[i..e] == line[..e];
    InStepClosed(reserved, line, p, e);
  }

  /** Where the pieces of first + pre + `<w>` + post sit in the line. */
  lemma SpanShape(line: string, first: string, pre: string, w: string, post: string, i: nat, p: nat, e: nat)
    requires line == first + pre + "<" + w + ">" + post
    requires i == |first| && p == i + |pre| && e == p + 1 + |w|
    requires '>' !in pre && '<' !in w && '>' !in w
    ensures e < |line| && line[p] == '<' && line[e] == '>'
    ensures forall k :: i <= k < e ==> line[k] != '>'
    ensures forall k :: p < k < e ==> line[k] != '<'
    ensures line[..i] == first && line[..p] == first + pre
    ensures line[p + 1..e] == w && line[e + 1..] == post
  {
    assert forall k :: i <= k < p ==> line[k] == pre[k - i];
    assert forall k :: p < k < e ==> line[k] == w[k - p - 1];
  }

  /** The stretch of first + pre + `<w>` + post from the end of first to the `>`. */
  lemma SpanSlice(line: string, first: string, pre: string, w: string, post: string)
    requires line == first + pre + "<" + w + ">" + post
    ensures line[|first|..|first| + |pre| + 1 + |w|] == pre + "<" + w
  {
    assert line == first + (pre + "<" + w) + (">" + post);
  }

  /**
   * A line with one span and no stray `>` before it: the span becomes its
   * tag and everything else is copied. pre may hold `<` characters; the
   * span opens at the last one.
   */
  lemma {:induction false} SingleSpan(reserved: set<string>, pre: string, w: string, post: string)
    requires '>' !in pre && '<' !in w && '>' !in w && '<' !in post
    ensures ExpandLinks(pre + "<" + w + ">" + post, reserved) == Ok(pre + Tag(reserved, w) + post)
  {
    var line := pre + "<" + w + ">" + post;
    assert line == "" + pre + "<" + w + ">" + post;
    var p := |pre|;
    var e := p + 1 + |w|;
    SpanShape(line, "", pre, w, post, 0, p, e);
    assert line[..0] == "";
    assert ScanState(line[..0], 0, 0, false) == Initial;
    SyncedSpan(line, reserved, 0, p, e);
    assert line[..p] == pre;
    CopyRest(line, reserved, e + 1, line[..p] + Tag(reserved, line[p + 1..e]));
  }

  /** The span opens at the most recent `<`: in `<x<w>` only w is the link name. */
  lemma {:induction false} InnermostOpener(reserved: set<string>, x: string, w: string, post: string)
    requires '<' !in x && '>' !in x && '<' !in w && '>' !in w && '<' !in post
    ensures ExpandLinks("<" + x + "<" + w + ">" + post, reserved) == Ok("<" + x + Tag(reserved, w) + post)
  {
    SingleSpan(reserved, "<" + x, w, post);
  }

  /** A `>` at index 0 closes nothing: it is copied and the next span is read as usual. */
  lemma {:induction false} LeadingCloserIgnored(reserved: set<string>, pre: string, w: string, post: string)
    requires '>' !in pre && '<' !in pre && '<' !in w && '>' !in w && '<' !in post
    ensures ExpandLinks(">" + pre + "<" + w + ">" + post, reserved) == Ok(">" + pre + Tag(reserved, w) + post)
  {
    var line := ">" + pre + "<" + w + ">" + post;
    var p := 1 + |pre|;
    var e := p + 1 + |w|;
    SpanShape(line, ">", pre, w, post, 1, p, e);
    CopyNoOpen(line, reserved, 0, 1, Initial);
    assert "" + line[0..1] == line[..1];
    SyncedSpan(line, reserved, 1, p, e);
    CopyRest(line, reserved, e + 1, line[..p] + Tag(reserved, line[p + 1..e]));
  }

  /**
   * A `>` at some index j > 0 before the first `<` is never cleared, so the
   * first `<` at k finds end = j < k + 1 and substring(k + 1, end) throws.
   */
  lemma {:induction false} StaleCloserFails(line: string, reserved: set<string>, j: nat, k: nat)
    requires 0 < j < k < |line| && line[j] == '>' && line[k] == '<'
    requires forall i :: 0 <= i < k ==> line[i] != '<'
    ensures ExpandLinks(line, reserved) == Fail(IndexOutOfBounds)
  {
    CopyNoOpen(line, reserved, 0, k, Initial);
    var e := LastCloser(line, 0, k, 0);
    assert j <= e < k;
    var st := ScanState("" + line[0..k], 0, e, false);
    assert Step(line, reserved, k, st) == Fail(IndexOutOfBounds);
  }

  lemma ReservedInStep(line: string, p: nat, e: nat)
    requires p < e < |line| && line[p] == '<' && line[e] == '>'
    ensures line[..p] + ("<" + line[p + 1..e] + ">") == line[..e + 1]
  {
    assert line[..e + 1] == line[..p] + [line[p]] + line[p + 1..e] + [line[e]];
  }

  /** Index form of a reserved span followed by another span. */
  lemma {:induction false} ReservedThenSpanAt(line: string, reserved: set<string>, p1: nat, e1: nat, p2: nat, e2: nat)
    requires p1 < e1 < p2 < e2 < |line|
    requires line[p1] == '<' && line[e1] == '>' && line[p2] == '<' && line[e2] == '>'
    requires line[p1 + 1..e1] in reserved
    requires forall k :: 0 <= k < e1 ==> line[k] != '>'
    requires forall k :: p1 < k < e1 ==> line[k] != '<'
    requires forall k :: e1 < k < e2 ==> line[k] != '>'
    requires forall k :: p2 < k < e2 ==> line[k] != '<'
    requires '<' !in line[e2 + 1..]
    ensures ExpandLinks(line, reserved) == Ok(line[..p2] + Tag(reserved, line[p2 + 1..e2]) + line[e2 + 1..])
  {
    var s1 := ScanState(line[..e1 + 1], 0, 0, false);
    assert ExpandLinks(line, reserved) == ScanFrom(line, reserved, e1 + 1, s1) by {
      ReservedPrefix(line, reserved, p1, e1);
    }
    assert ScanFrom(line, reserved, e1 + 1, s1) == Ok(line[..p2] + Tag(reserved, line[p2 + 1..e2]) + line[e2 + 1..]) by {
      LastSyncedSpan(line, reserved, e1 + 1, p2, e2);
    }
  }

  /**
   * A last span read while the builder holds exactly the input before index
   * i: the rest of the scan yields the input with the span replaced by its tag.
   */
  lemma LastSyncedSpan(line: string, reserved: set<string>, i: nat, p: nat, e: nat)
    requires i <= p < e < |line|
    requires line[p] == '<' && line[e] == '>'
    requires forall k :: i <= k < e ==> line[k] != '>'
    requires forall k :: p < k < e ==> line[k] != '<'
    requires '<' !in line[e + 1..]
    ensures ScanFrom(line, reserved, i, ScanState(line[..i], 0, 0, false)) ==
            Ok(line[..p] + Tag(reserved, line[p + 1..e]) + line[e + 1..])
  {
    var sb := line[..p] + Tag(reserved, line[p + 1..e]);
    assert Inv(e + 1, ScanState(sb, 0, 0, false)) &&
           ScanFrom(line, reserved, i, ScanState(line[..i], 0, 0, false)) ==
           ScanFrom(line, reserved, e + 1, ScanState(sb, 0, 0, false)) by {
      SyncedSpan(line, reserved, i, p, e);
    }
    CopyRest(line, reserved, e + 1, sb);
  }

  /** A leading reserved span leaves the builder holding exactly the input up to its `>`. */
  lemma ReservedPrefix(line: string, reserved: set<string>, p1: nat, e1: nat)
    requires p1 < e1 < |line| && line[p1] == '<' && line[e1] == '>'
    requires line[p1 + 1..e1] in reserved
    requires forall k :: 0 <= k < e1 ==> line[k] != '>'
    requires forall k :: p1 < k < e1 ==> line[k] != '<'
    ensures Inv(e1 + 1, ScanState(line[..e1 + 1], 0, 0, false))
    ensures ExpandLinks(line, reserved) == ScanFrom(line, reserved, e1 + 1, ScanState(line[..e1 + 1], 0, 0, false))
  {
    assert line[..p1] + Tag(reserved, line[p1 + 1..e1]) == line[..e1 + 1] by {
      ReservedInStep(line, p1, e1);
    }
    assert ScanState(line[..0], 0, 0, false) == Initial;
    SyncedSpan(line, reserved, 0, p1, e1);
  }

  /**
   * Two spans whose first one is reserved: the reserved span keeps the
   * builder in step with the input, so the second one lands where it should.
   */
  lemma {:induction false} ReservedThenSpan(reserved: set<string>, pre1: string, w1: string, pre2: string, w2: string, post: string)
    requires w1 in reserved
    requires '>' !in pre1 && '<' !in w1 && '>' !in w1
    requires '>' !in pre2 && '<' !in w2 && '>' !in w2 && '<' !in post
    ensures ExpandLinks(pre1 + "<" + w1 + ">" + pre2 + "<" + w2 + ">" + post, reserved)
         == Ok(pre1 + "<" + w1 + ">" + pre2 + Tag(reserved, w2) + post)
  {
    var first := pre1 + "<" + w1 + ">";
    var line := pre1 + "<" + w1 + ">" + pre2 + "<" + w2 + ">" + post;
    var p1 := |pre1|;
    var e1 := p1 + 1 + |w1|;
    var p2 := e1 + 1 + |pre2|;
    var e2 := p2 + 1 + |w2|;
    assert ExpandLinks(line, reserved) == Ok(line[..p2] + Tag(reserved, line[p2 + 1..e2]) + line[e2 + 1..]) by {
      Regroup(pre1, w1, pre2, w2, post);
      SpanShape(line, "", pre1, w1, pre2 + "<" + w2 + ">" + post, 0, p1, e1);
      SpanShape(line, first, pre2, w2, post, e1 + 1, p2, e2);
      ReservedThenSpanAt(line, reserved, p1, e1, p2, e2);
    }
    assert line[..p2] == first + pre2 && line[p2 + 1..e2] == w2 && line[e2 + 1..] == post by {
      Regroup(pre1, w1, pre2, w2, post);
      SpanShape(line, first, pre2, w2, post, e1 + 1, p2, e2);
    }
  }

  lemma Regroup(pre1: string, w1: string, pre2: string, w2: string, post: string)
    ensures pre1 + "<" + w1 + ">" + pre2 + "<" + w2 + ">" + post
         == "" + pre1 + "<" + w1 + ">" + (pre2 + "<" + w2 + ">" + post)
         == (pre1 + "<" + w1 + ">") + pre2 + "<" + w2 + ">" + post
  {
  }

  /** A span then a rest without `<`, read from any state with nothing pending. */
  lemma {:induction false} LastSpan(line: string, reserved: set<string>, i: nat, p: nat, e: nat, sb: string)
    requires Inv(i, ScanState(sb, 0, 0, false)) && i <= p < e < |line|
    requires line[p] == '<' && line[e] == '>'
    requires forall k :: i <= k < e ==> line[k] != '>'
    requires forall k :: p < k < e ==> line[k] != '<'
    requires '<' !in line[e + 1..]
    ensures ScanFrom(line, reserved, i, ScanState(sb, 0, 0, false)) ==
            Ok(Closed(reserved, sb + line[i..e], p, line[p + 1..e]) + line[e + 1..])
  {
    Span(line, reserved, i, p, e, ScanState(sb, 0, 0, false));
    CopyRest(line, reserved, e + 1, Closed(reserved, sb + line[i..e], p, line[p + 1..e]));
  }

  /** A link at the very start of the line. */
  lemma {:induction false} LeadingLink(line: string, reserved: set<string>, e1: nat)
    requires 0 < e1 < |line| && line[0] == '<' && line[e1] == '>'
    requires line[1..e1] !in reserved
    requires forall k :: 0 <= k < e1 ==> line[k] != '>'
    requires forall k :: 0 < k < e1 ==> line[k] != '<'
    ensures Inv(e1 + 1, ScanState(LinkText(line[1..e1]), 0, 0, false))
    ensures ExpandLinks(line, reserved) == ScanFrom(line, reserved, e1 + 1, ScanState(LinkText(line[1..e1]), 0, 0, false))
  {
    LeadingTag(line, reserved, e1);
    assert ScanState(line[..0], 0, 0, false) == Initial;
    SyncedSpan(line, reserved, 0, 0, e1);
  }

  lemma LeadingTag(line: string, reserved: set<string>, e1: nat)
    requires 0 < e1 <= |line| && line[1..e1] !in reserved
    ensures line[..0] + Tag(reserved, line[1..e1]) == LinkText(line[1..e1])
  {
    assert line[..0] == [];
  }

  /** Index form of a link at the start of the line followed by another span. */
  lemma {:induction false} LinkThenSpanAt(line: string, reserved: set<string>, e1: nat, p2: nat, e2: nat)
    requires 0 < e1 < p2 < e2 < |line|
    requires line[0] == '<' && line[e1] == '>' && line[p2] == '<' && line[e2] == '>'
    requires line[1..e1] !in reserved
    requires forall k :: 0 <= k < e1 ==> line[k] != '>'
    requires forall k :: 0 < k < e1 ==> line[k] != '<'
    requires forall k :: e1 < k < e2 ==> line[k] != '>'
    requires forall k :: p2 < k < e2 ==> line[k] != '<'
    requires '<' !in line[e2 + 1..]
    ensures ExpandLinks(line, reserved) ==
            Ok(Closed(reserved, LinkText(line[1..e1]) + line[e1 + 1..e2], p2, line[p2 + 1..e2]) + line[e2 + 1..])
  {
    var s1 := ScanState(LinkText(line[1..e1]), 0, 0, false);
    assert Inv(e1 + 1, s1) && ExpandLinks(line, reserved) == ScanFrom(line, reserved, e1 + 1, s1) by {
      LeadingLink(line, reserved, e1);
    }
    assert ScanFrom(line, reserved, e1 + 1, s1) ==
           Ok(Closed(reserved, s1.sb + line[e1 + 1..e2], p2, line[p2 + 1..e2]) + line[e2 + 1..]) by {
      LastSpan(line, reserved, e1 + 1, p2, e2, s1.sb);
    }
  }

  /** Where the first span of `<w1>` + mid + `<w2>` + post sits in the line. */
  lemma FirstOfTwoSpans(line: string, w1: string, mid: string, w2: string, post: string, e1: nat)
    requires line == "<" + w1 + ">" + mid + "<" + w2 + ">" + post && e1 == 1 + |w1|
    requires '<' !in w1 && '>' !in w1
    ensures e1 < |line| && line[0] == '<' && line[e1] == '>' && line[1..e1] == w1
    ensures forall k :: 0 <= k < e1 ==> line[k] != '>'
    ensures forall k :: 0 < k < e1 ==> line[k] != '<'
  {
    Regroup("", w1, mid, w2, post);
    SpanShape(line, "", "", w1, mid + "<" + w2 + ">" + post, 0, 0, e1);
  }

  /** Where the second span of `<w1>` + mid + `<w2>` + post and the stretch before it sit in the line. */
  lemma SecondOfTwoSpans(line: string, w1: string, mid: string, w2: string, post: string, e1: nat, p2: nat, e2: nat)
    requires line == "<" + w1 + ">" + mid + "<" + w2 + ">" + post
    requires e1 == 1 + |w1| && p2 == e1 + 1 + |mid| && e2 == p2 + 1 + |w2|
    requires '<' !in mid && '>' !in mid && '<' !in w2 && '>' !in w2
    ensures e2 < |line| && line[p2] == '<' && line[e2] == '>'
    ensures forall k :: e1 < k < e2 ==> line[k] != '>'
    ensures forall k :: p2 < k < e2 ==> line[k] != '<'
    ensures line[p2 + 1..e2] == w2 && line[e2 + 1..] == post && line[e1 + 1..e2] == mid + "<" + w2
  {
    Regroup("", w1, mid, w2, post);
    SpanShape(line, "<" + w1 + ">", mid, w2, post, e1 + 1, p2, e2);
    SpanSlice(line, "<" + w1 + ">", mid, w2, post);
  }

  lemma SecondLinkValue(reserved: set<string>, line: string, w1: string, mid: string, w2: string, post: string, e1: nat, p2: nat, e2: nat)
    requires w2 !in reserved && 1 <= e1 < p2 < e2 < |line|
    requires p2 == |w1| + 2 + |mid| && e2 == |w1| + 3 + |mid| + |w2|
    requires line[1..e1] == w1 && line[p2 + 1..e2] == w2 && line[e2 + 1..] == post && line[e1 + 1..e2] == mid + "<" + w2
    ensures p2 <= |LinkText(line[1..e1]) + line[e1 + 1..e2]|
    ensures Closed(reserved, LinkText(line[1..e1]) + line[e1 + 1..e2], p2, line[p2 + 1..e2]) + line[e2 + 1..]
         == Replace(LinkText(w1) + mid + "<" + w2, |w1| + 2 + |mid|, |w1| + 3 + |mid| + |w2|, LinkText(w2)) + post
  {
    assert LinkText(w1) + (mid + "<" + w2) == LinkText(w1) + mid + "<" + w2;
  }

  /**
   * After a link, the builder is longer than the input prefix, and the next
   * link replaces the characters at the input indices of its span rather
   * than the span itself.
   */
  lemma {:induction false} SecondLinkAtInputIndex(reserved: set<string>, w1: string, mid: string, w2: string, post: string)
    requires w1 !in reserved && w2 !in reserved
    requires '<' !in w1 && '>' !in w1 && '<' !in mid && '>' !in mid
    requires '<' !in w2 && '>' !in w2 && '<' !in post
    ensures ExpandLinks("<" + w1 + ">" + mid + "<" + w2 + ">" + post, reserved)
         == Ok(Replace(LinkText(w1) + mid + "<" + w2, |w1| + 2 + |mid|, |w1| + 3 + |mid| + |w2|, LinkText(w2)) + post)
  {
    var line := "<" + w1 + ">" + mid + "<" + w2 + ">" + post;
    var e1 := 1 + |w1|;
    var p2 := e1 + 1 + |mid|;
    var e2 := p2 + 1 + |w2|;
    FirstOfTwoSpans(line, w1, mid, w2, post, e1);
    SecondOfTwoSpans(line, w1, mid, w2, post, e1, p2, e2);
    SecondLinkAt(reserved, line, w1, mid, w2, post, e1, p2, e2);
  }

  /** Index form of SecondLinkAtInputIndex. */
  lemma SecondLinkAt(reserved: set<string>, line: string, w1: string, mid: string, w2: string, post: string, e1: nat, p2: nat, e2: nat)
    requires w1 !in reserved && w2 !in reserved
    requires p2 == |w1| + 2 + |mid| && e2 == |w1| + 3 + |mid| + |w2|
    requires 0 < e1 < p2 < e2 < |line|
    requires line[0] == '<' && line[e1] == '>' && line[p2] == '<' && line[e2] == '>'
    requires forall k :: 0 <= k < e1 ==> line[k] != '>'
    requires forall k :: 0 < k < e1 ==> line[k] != '<'
    requires forall k :: e1 < k < e2 ==> line[k] != '>'
    requires forall k :: p2 < k < e2 ==> line[k] != '<'
    requires line[1..e1] == w1 && line[p2 + 1..e2] == w2 && line[e2 + 1..] == post && line[e1 + 1..e2] == mid + "<" + w2
    requires '<' !in line[e2 + 1..]
    ensures ExpandLinks(line, reserved)
         == Ok(Replace(LinkText(w1) + mid + "<" + w2, |w1| + 2 + |mid|, |w1| + 3 + |mid| + |w2|, LinkText(w2)) + post)
  {
    LinkThenSpanAt(line, reserved, e1, p2, e2);
    SecondLinkValue(reserved, line, w1, mid, w2, post, e1, p2, e2);
  }
}
