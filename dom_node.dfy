/**
 * An HTML element built by chaining mutators and serialised by a recursive
 * walk over its children. Attributes are kept in insertion order; the
 * program keeps them in a HashMap, whose iteration order is left open.
 */
module Dom {
  import opened Common

  /** The value stored under attribute name n, if any. */
  function AttrValue(attrs: seq<(string, string)>, n: string): (r: Option<string>)
    ensures r.Some? <==> exists i :: 0 <= i < |attrs| && attrs[i].0 == n
  {
    if attrs == [] then None
    else if attrs[0].0 == n then Some(attrs[0].1)
    else AttrValue(attrs[1..], n)
  }

  /** HashMap.put: a name already present has its value replaced, a new name is added. */
  function PutAttr(attrs: seq<(string, string)>, n: string, v: string): (r: seq<(string, string)>)
    ensures AttrValue(r, n) == Some(v)
    ensures forall m :: m != n ==> AttrValue(r, m) == AttrValue(attrs, m)
    ensures AttrValue(attrs, n).None? ==> r == attrs + [(n, v)]
    ensures AttrValue(attrs, n).Some? ==> |r| == |attrs|
  {
    if attrs == [] then [(n, v)]
    else if attrs[0].0 == n then [(n, v)] + attrs[1..]
    else
      var rest := PutAttr(attrs[1..], n, v);
      assert attrs == [attrs[0]] + attrs[1..];
      [attrs[0]] + rest
  }

  /** The ` name="value"` piece of one attribute. */
  function AttrText(attr: (string, string)): string {
    " " + attr.0 + "=\"" + attr.1 + "\""
  }

  /** The ` name="value"` pieces of an opening tag. */
  function AttrsText(attrs: seq<(string, string)>): string {
    if attrs == [] then ""
    else AttrText(attrs[0]) + AttrsText(attrs[1..])
  }

  /** Each attribute added after the others shows up last in the opening tag. */
  lemma {:induction false} AttrsTextSnoc(attrs: seq<(string, string)>, n: string, v: string)
    ensures AttrsText(attrs + [(n, v)]) == AttrsText(attrs) + AttrText((n, v))
  {
    var tail := AttrText((n, v));
    if attrs == [] {
      assert AttrsText([(n, v)]) == tail + AttrsText([]);
    } else {
      var head := AttrText(attrs[0]);
      assert (attrs + [(n, v)])[0] == attrs[0];
      assert (attrs + [(n, v)])[1..] == attrs[1..] + [(n, v)];
      AttrsTextSnoc(attrs[1..], n, v);
      calc {
        AttrsText(attrs + [(n, v)]);
        head + AttrsText(attrs[1..] + [(n, v)]);
        head + (AttrsText(attrs[1..]) + tail);
        (head + AttrsText(attrs[1..])) + tail;
      }
    }
  }

  /** closingTag(name) */
  function ClosingTag(name: string): string {
    "</" + name + ">"
  }

  class DOMNode {
    const tagName: string
    var text: string
    var attributes: seq<(string, string)>
    var children: seq<DOMNode>
    ghost var Repr: set<object>

    /** The node owns its children's footprints and is not among them, so the tree is finite. */
    ghost predicate Valid()
      reads this, Repr
      decreases Repr
    {
      this in Repr &&
      forall i :: 0 <= i < |children| ==>
        children[i] in Repr && children[i].Repr <= Repr && this !in children[i].Repr &&
        children[i].Valid()
    }

    /** new DOMNode(tagName): the two-argument constructor with empty text. */
    constructor (tagName: string)
      ensures Valid() && fresh(Repr) && Repr == {this}
      ensures this.tagName == tagName && text == "" && attributes == [] && children == []
    {
      this.tagName := tagName;
      text := "";
      attributes := [];
      children := [];
      Repr := {this};
    }

    /** new DOMNode(tagName, text): no attributes and no children yet. */
    constructor WithText(tagName: string, text: string)
      ensures Valid() && fresh(Repr) && Repr == {this}
      ensures this.tagName == tagName && this.text == text && attributes == [] && children == []
    {
      this.tagName := tagName;
      this.text := text;
      attributes := [];
      children := [];
      Repr := {this};
    }

    /** addAttribute(name, value): stored only when both are non-empty; a present name is overwritten. */
    method AddAttribute(name: string, value: string)
      modifies this`attributes
      ensures |name| > 0 && |value| > 0 ==> attributes == PutAttr(old(attributes), name, value)
      ensures |name| == 0 || |value| == 0 ==> attributes == old(attributes)
    {
      if |name| > 0 && |value| > 0 {
        attributes := PutAttr(attributes, name, value);
      }
    }

    /** appendNode(node): null is ignored, anything else goes after the present children. */
    method AppendNode(node: DOMNode?)
      requires Valid()
      requires node != null ==> node.Valid() && this !in node.Repr
      modifies this`children, this`Repr
      ensures Valid()
      ensures node == null ==> children == old(children) && Repr == old(Repr)
      ensures node != null ==> children == old(children) + [node] && Repr == old(Repr) + node.Repr
    {
      if node != null {
        children := children + [node];
        Repr := Repr + node.Repr;
      }
    }

    /** appendNodes(nodes): appendNode for each element in order; a null array (None) is a no-op. */
    method AppendNodes(nodes: Option<seq<DOMNode?>>)
      requires Valid()
      requires nodes.Some? ==> forall i :: 0 <= i < |nodes.value| && nodes.value[i] != null ==>
                 nodes.value[i].Valid() && this !in nodes.value[i].Repr
      modifies this`children, this`Repr
      ensures Valid()
      ensures nodes.None? ==> children == old(children)
      ensures nodes.Some? ==> children == old(children) + NonNull(nodes.value)
    {
      if nodes.Some? {
        var ns := nodes.value;
        var i := 0;
        while i < |ns|
          invariant 0 <= i <= |ns|
          invariant Valid()
          invariant children == old(children) + NonNull(ns[..i])
        {
          AppendNode(ns[i]);
          assert ns[..i + 1] == ns[..i] + [ns[i]];
          NonNullAppend(ns[..i], ns[i]);
          i := i + 1;
        }
        assert ns[..i] == ns;
      }
    }

    /** appendText(t): the text grows by a space and t. */
    method AppendText(t: string)
      modifies this`text
      ensures text == old(text) + " " + t
    {
      text := text + " " + t;
    }

    /** openingTag(name): the tag name and every attribute as ` name="value"`. */
    function OpeningTag(name: string): string
      reads this
    {
      "<" + name + AttrsText(attributes) + ">"
    }

    /** toString(): opening tag, text, every child in order, closing tag. */
    function ToString(): string
      reads this, Repr
      requires Valid()
      decreases Repr, 0
    {
      OpeningTag(tagName) + text + RenderAll(children) + ClosingTag(tagName)
    }
  }

  /**
   * openingTag(name): `<name>` without attributes, and one attribute k = v
   * added to a node that lacked it appears as ` k="v"` before the `>`.
   */
  lemma OpeningTagShape(node: DOMNode, name: string, k: string, v: string)
    ensures node.attributes == [] ==> node.OpeningTag(name) == "<" + name + ">"
    ensures AttrValue(node.attributes, k).None? ==>
      "<" + name + AttrsText(PutAttr(node.attributes, k, v)) + ">" ==
      "<" + name + AttrsText(node.attributes) + AttrText((k, v)) + ">"
  {
    if AttrValue(node.attributes, k).None? {
      var attrs := node.attributes;
      assert PutAttr(attrs, k, v) == attrs + [(k, v)];
      AttrsTextSnoc(attrs, k, v);
    }
  }

  /** Everything the nodes of cs own. */
  ghost function Footprint(cs: seq<DOMNode>): (fp: set<object>)
    reads set i | 0 <= i < |cs| :: cs[i]
    ensures forall i :: 0 <= i < |cs| ==> cs[i].Repr <= fp
  {
    set i, o | 0 <= i < |cs| && o in cs[i].Repr :: o
  }

  /** The serialisations of cs, one after the other. */
  function RenderAll(cs: seq<DOMNode>): string
    reads set i | 0 <= i < |cs| :: cs[i]
    reads set i, o | 0 <= i < |cs| && o in cs[i].Repr :: o
    requires forall i :: 0 <= i < |cs| ==> cs[i].Valid()
    decreases Footprint(cs), |cs|
  {
    if cs == [] then ""
    else
      assert cs[|cs| - 1].Repr <= Footprint(cs);
      assert Footprint(cs[..|cs| - 1]) <= Footprint(cs);
      RenderAll(cs[..|cs| - 1]) + cs[|cs| - 1].ToString()
  }

  /** The serialisation of an "a" element with that text and href; addAttribute drops an empty href. */
  function AnchorText(text: string, href: string): string {
    "<a" + (if href == "" then "" else " href=\"" + href + "\"") + ">" + text + "</a>"
  }

  /** new DOMNode("a", text).addAttribute("href", href), as buildLink and handleLinks write it. */
  method NewAnchor(text: string, href: string) returns (a: DOMNode)
    ensures fresh(a.Repr) && a.Valid() && a.children == []
    ensures a.ToString() == AnchorText(text, href)
  {
    a := new DOMNode.WithText("a", text);
    a.AddAttribute("href", href);
    assert a.attributes == (if href == "" then [] else [("href", href)]);
    AnchorLeaf(a, text, href);
  }

  /** An "a" leaf holding just that text and that href serialises as AnchorText. */
  lemma AnchorLeaf(a: DOMNode, text: string, href: string)
    requires a.Valid() && a.children == [] && a.tagName == "a" && a.text == text
    requires a.attributes == (if href == "" then [] else [("href", href)])
    ensures a.ToString() == AnchorText(text, href)
  {
    LeafToString(a);
    HrefText(href);
    var attrs := if href == "" then "" else " href=\"" + href + "\"";
    calc {
      a.ToString();
      a.OpeningTag("a") + text + ClosingTag("a");
      ("<a" + attrs + ">") + text + "</a>";
      AnchorText(text, href);
    }
  }

  /** A node without children serialises as its opening tag, its text and its closing tag. */
  lemma LeafToString(n: DOMNode)
    requires n.Valid() && n.children == []
    ensures n.ToString() == n.OpeningTag(n.tagName) + n.text + ClosingTag(n.tagName)
  {
    assert RenderAll(n.children) == "";
  }

  /** The attribute text of the href that addAttribute keeps, if any. */
  lemma HrefText(href: string)
    ensures AttrsText(if href == "" then [] else [("href", href)]) == (if href == "" then "" else " href=\"" + href + "\"")
  {
    if href != "" {
      assert AttrsText([("href", href)]) == " href=\"" + href + "\"" + AttrsText([]);
    }
  }

  /** The last child is serialised after the others, just before the closing tag. */
  lemma RenderLastChild(n: DOMNode, cs: seq<DOMNode>, last: DOMNode)
    requires n.Valid() && n.children == cs + [last]
    requires last.Valid() && forall i :: 0 <= i < |cs| ==> cs[i].Valid()
    ensures n.ToString() == n.OpeningTag(n.tagName) + n.text + RenderAll(cs) + last.ToString() + ClosingTag(n.tagName)
  {
    assert n.children[..|n.children| - 1] == cs;
  }

  /** The non-null elements of ns, in order. */
  function NonNull(ns: seq<DOMNode?>): (r: seq<DOMNode>)
    ensures |r| <= |ns|
  {
    if ns == [] then [] else (if ns[0] == null then [] else [ns[0]]) + NonNull(ns[1..])
  }

  lemma {:induction false} NonNullAppend(ns: seq<DOMNode?>, n: DOMNode?)
    ensures NonNull(ns + [n]) == NonNull(ns) + (if n == null then [] else [n])
  {
    if ns != [] {
      assert (ns + [n])[1..] == ns[1..] + [n];
      NonNullAppend(ns[1..], n);
    } else {
      assert ns + [n] == [n];
    }
  }

  /** DOMNode.toString(node): null serialises to the empty string. */
  function NodeText(node: DOMNode?): (r: string)
    reads if node == null then {} else {node} + node.Repr
    requires node != null ==> node.Valid()
    ensures node == null ==> r == ""
    ensures node != null ==> r == node.ToString()
  {
    if node == null then "" else node.ToString()
  }
}
