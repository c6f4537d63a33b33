/**
 * LinkChecker.handleLinks: the same scanner as Line.handleLinks, with its
 * own reserved tags `p` and `code`. Here `tt` is not reserved.
 */
module LinkCheck {
  import opened Common
  import opened LinkScan
  import Lines

  /** The tag names this link checker copies through. */
  const Reserved: set<string> := {"p", "/p", "code", "/code"}

  /** handleLinks(line) with the reserved set above. */
  method HandleLinks(line: string) returns (r: Result<string>)
    ensures r == ExpandLinks(line, Reserved)
    ensures '<' !in line ==> r == Ok(line)
  {
    r := LinkScan.HandleLinks(line, Reserved);
    if '<' !in line {
      NoOpenUnchanged(line, Reserved);
    }
  }

  /** A `<code>...</code>` pair survives: both tags are reserved. */
  lemma CodeKept(pre: string, x: string, post: string)
    requires '>' !in pre && '<' !in x && '>' !in x && '<' !in post
    ensures ExpandLinks(pre + "<code>" + x + "</code>" + post, Reserved) == Ok(pre + "<code>" + x + "</code>" + post)
  {
    ReservedThenSpan(Reserved, pre, "code", x, "/code", post);
    assert Tag(Reserved, "/code") == "</code>";
    assert pre + "<code>" + x + "</code>" + post == pre + "<" + "code" + ">" + x + "<" + "/code" + ">" + post;
    assert pre + "<" + "code" + ">" + x + "</code>" + post == pre + "<code>" + x + "</code>" + post;
  }

  /** A `<tt>` tag is a link here, while Line.handleLinks keeps it. */
  lemma TeletypeIsLink(pre: string, post: string)
    requires '>' !in pre && '<' !in post
    ensures ExpandLinks(pre + "<tt>" + post, Reserved) == Ok(pre + LinkText("tt") + post)
    ensures ExpandLinks(pre + "<tt>" + post, Lines.Reserved) == Ok(pre + "<tt>" + post)
  {
    assert pre + "<tt>" + post == pre + "<" + "tt" + ">" + post;
    SingleSpan(Reserved, pre, "tt", post);
    Lines.ReservedTagKept(pre, "tt", post);
  }

  /** The first span of a line, with no `>` before it, becomes a link unless reserved; its `>` is consumed. */
  lemma FirstSpanLink(pre: string, w: string, post: string)
    requires w !in Reserved && '<' !in w && '>' !in w && '>' !in pre && '<' !in post
    ensures ExpandLinks(pre + "<" + w + ">" + post, Reserved) ==
            Ok(pre + "<tt><a href=\"" + w + ".html\">" + w + "</a></tt>" + post)
  {
    SingleSpan(Reserved, pre, w, post);
    assert pre + LinkText(w) + post == pre + "<tt><a href=\"" + w + ".html\">" + w + "</a></tt>" + post;
  }
}
