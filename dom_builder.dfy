/**
 * The small page parts DOMPartialBuilder assembles: the signature strings of
 * methods, constructors and properties, the guards that make a description,
 * a returns table, a parameters table or a summary table absent (null), and
 * the nested sidebar entries of namespaces.
 *
 * Member sets are name-ordered TreeSets (maps keyed by name here), iterated
 * in increasing String.compareTo order of their names.
 */
module DomBuilder {
  import opened Common
  import opened Strings
  import opened Annotations
  import opened Entries
  import opened Dom

  // ----- Signature strings -----

  /** The names of the parameters, in order. */
  function Names(ps: seq<Parameter>): (r: seq<string>)
    ensures |r| == |ps|
  {
    if ps == [] then [] else Names(ps[..|ps| - 1]) + [ps[|ps| - 1].name]
  }

  /** The items `<em>T</em> N` of a method section's signature, in parameter order. */
  function EmItems(ps: seq<Parameter>): (r: seq<string>)
    reads set i | 0 <= i < |ps| :: ps[i]
    ensures |r| == |ps|
  {
    if ps == [] then []
    else EmItems(ps[..|ps| - 1]) + ["<em>" + ps[|ps| - 1].argType + "</em> " + ps[|ps| - 1].name]
  }

  /** The items `T N` of an entry signature, in parameter order. */
  function TypedItems(ps: seq<Parameter>): (r: seq<string>)
    reads set i | 0 <= i < |ps| :: ps[i]
    ensures |r| == |ps|
  {
    if ps == [] then []
    else TypedItems(ps[..|ps| - 1]) + [ps[|ps| - 1].argType + " " + ps[|ps| - 1].name]
  }

  /** The item lists of one parameter more end with that parameter's item. */
  lemma ItemsPrefix(ps: seq<Parameter>, i: nat)
    requires i < |ps|
    ensures Names(ps[..i + 1]) == Names(ps[..i]) + [ps[i].name]
    ensures EmItems(ps[..i + 1]) == EmItems(ps[..i]) + ["<em>" + ps[i].argType + "</em> " + ps[i].name]
    ensures TypedItems(ps[..i + 1]) == TypedItems(ps[..i]) + [ps[i].argType + " " + ps[i].name]
  {
    assert ps[..i + 1][..i] == ps[..i];
  }

  /** buildSignatureParamsString: the parameter names, comma separated, between " ( " and " )". */
  function ParamsSignature(ps: seq<Parameter>): string {
    " ( " + Join(Names(ps), ", ") + " )"
  }

  /** buildMethodSignature's text: the bold name, then the items; no space before ")" when there are none. */
  function MethodSignature(name: string, ps: seq<Parameter>): string
    reads set i | 0 <= i < |ps| :: ps[i]
  {
    "<strong>" + name + "</strong> ( " + Join(EmItems(ps), ", ") + (if ps == [] then ")" else " )")
  }

  /** buildEntrySignature for a property: optional "static ", the type, the bold name. */
  function PropertySignature(isStatic: bool, typeText: string, name: string): string {
    (if isStatic then "static " else "") + typeText + " " + "<strong>" + name + "</strong>"
  }

  /**
   * buildEntrySignature for a method or constructor: optional "static ", the
   * return type, the bold name and the items, the last one followed by a space.
   */
  function CallableSignature(isStatic: bool, returnType: string, name: string, ps: seq<Parameter>): string
    reads set i | 0 <= i < |ps| :: ps[i]
  {
    (if isStatic then "static " else "") + returnType + " <strong>" + name + "</strong> ( "
      + Join(TypedItems(ps), ", ") + (if ps == [] then "" else " ") + ")"
  }

  /** With no parameters the three signatures close their parentheses differently. */
  lemma NoParameterSignatures(isStatic: bool, returnType: string, name: string)
    ensures ParamsSignature([]) == " (  )"
    ensures MethodSignature(name, []) == "<strong>" + name + "</strong> ( )"
    ensures CallableSignature(isStatic, returnType, name, [])
         == (if isStatic then "static " else "") + returnType + " <strong>" + name + "</strong> ( )"
  {
  }

  /** With one parameter each signature shows exactly that parameter's item. */
  lemma OneParameterSignatures(p: Parameter, isStatic: bool, returnType: string, name: string)
    ensures ParamsSignature([p]) == " ( " + p.name + " )"
    ensures MethodSignature(name, [p]) == "<strong>" + name + "</strong> ( <em>" + p.argType + "</em> " + p.name + " )"
    ensures CallableSignature(isStatic, returnType, name, [p])
         == (if isStatic then "static " else "") + returnType + " <strong>" + name + "</strong> ( " + p.argType + " " + p.name + " )"
  {
    assert [p][..0] == [];
  }

  /** A parameter list read from the front: the first parameter's item opens the list. */
  lemma {:induction false} SignatureItemsCons(p: Parameter, ps: seq<Parameter>)
    ensures Join(Names([p] + ps), ", ") == if ps == [] then p.name else p.name + ", " + Join(Names(ps), ", ")
  {
    NamesCons(p, ps);
    JoinCons(p.name, Names(ps), ", ");
  }

  lemma {:induction false} NamesCons(p: Parameter, ps: seq<Parameter>)
    ensures Names([p] + ps) == [p.name] + Names(ps)
  {
    if ps != [] {
      var init := ps[..|ps| - 1];
      assert ([p] + ps)[..|ps|] == [p] + init;
      assert ps[..|ps| - 1] == init;
      NamesCons(p, init);
    }
  }

  /** The text of buildSignatureParamsString(entry); an entry without a parameter list throws. */
  method BuildSignatureParamsString(entry: Entry) returns (r: Result<string>)
    ensures entry.parameters.None? ==> r == Fail(NullDereference)
    ensures entry.parameters.Some? ==> r == Ok(ParamsSignature(entry.parameters.value))
  {
    if entry.parameters.None? {
      return Fail(NullDereference);
    }
    var ps := entry.parameters.value;
    var sb := " ( ";
    var size := |ps|;
    for i := 0 to size
      invariant sb == " ( " + Join(Names(ps[..i]), ", ") + (if 0 < i < size then ", " else "")
    {
      ItemsPrefix(ps, i);
      JoinStep(" ( ", Names(ps[..i]), ps[i].name, ", ");
      sb := sb + ps[i].name;
      if i != size - 1 {
        sb := sb + ", ";
      }
    }
    assert ps[..size] == ps;
    assert sb == " ( " + Join(Names(ps), ", ");
    sb := sb + " )";
    return Ok(sb);
  }

  /** The text of buildMethodSignature for the given name and parameters. */
  method MethodSignatureText(name: string, ps: seq<Parameter>) returns (s: string)
    ensures s == MethodSignature(name, ps)
  {
    s := "<strong>" + name + "</strong> ( ";
    var size := |ps|;
    for i := 0 to size
      invariant s == "<strong>" + name + "</strong> ( " + Join(EmItems(ps[..i]), ", ") + (if 0 < i < size then ", " else "")
    {
      ItemsPrefix(ps, i);
      JoinStep("<strong>" + name + "</strong> ( ", EmItems(ps[..i]), "<em>" + ps[i].argType + "</em> " + ps[i].name, ", ");
      s := s + ("<em>" + ps[i].argType + "</em> " + ps[i].name);
      if i != size - 1 {
        s := s + ", ";
      }
    }
    assert ps[..size] == ps;
    s := s + (if size == 0 then ")" else " )");
  }

  /** The text of buildEntrySignature for a method or constructor. */
  method CallableSignatureText(isStatic: bool, returnType: string, name: string, ps: seq<Parameter>) returns (s: string)
    ensures s == CallableSignature(isStatic, returnType, name, ps)
  {
    s := (if isStatic then "static " else "") + returnType + " <strong>" + name + "</strong> ( ";
    ghost var prefix := s;
    var size := |ps|;
    for i := 0 to size
      invariant s == prefix + Join(TypedItems(ps[..i]), ", ") + (if 0 < i < size then ", " else if 0 < i == size then " " else "")
    {
      ItemsPrefix(ps, i);
      JoinStep(prefix, TypedItems(ps[..i]), ps[i].argType + " " + ps[i].name, ", ");
      s := s + (ps[i].argType + " " + ps[i].name);
      if i != size - 1 {
        s := s + ", ";
      } else {
        s := s + " ";
      }
    }
    assert ps[..size] == ps;
    s := s + ")";
  }

  /** buildMethodSignature(method): a span of class "signature"; an entry without a parameter list throws. */
  method BuildMethodSignature(m: Entry) returns (r: Result<DOMNode>)
    ensures m.parameters.None? ==> r == Fail(NullDereference)
    ensures m.parameters.Some? ==> r.Ok?
    ensures r.Ok? ==> fresh(r.value.Repr) && r.value.Valid() && r.value.tagName == "span"
    ensures r.Ok? ==> r.value.text == MethodSignature(m.name, m.parameters.value)
    ensures r.Ok? ==> r.value.attributes == [("class", "signature")] && r.value.children == []
  {
    if m.parameters.None? {
      return Fail(NullDereference);
    }
    var text := MethodSignatureText(m.name, m.parameters.value);
    var span := new DOMNode.WithText("span", text);
    span.AddAttribute("class", "signature");
    return Ok(span);
  }

  /** Whether an entry is shown with the property form of buildEntrySignature. */
  predicate IsProperty(k: Kind) {
    k == STATICPROPERTY || k == INSTANCEPROPERTY
  }

  /**
   * buildEntrySignature(entry): an h4 holding the property form (and the
   * entry's name as id) for properties, else the method form, whose return
   * type is "" when the entry has no return value; a method form over an
   * entry without a parameter list throws.
   */
  method BuildEntrySignature(entry: Entry) returns (r: Result<DOMNode>)
    ensures r.Ok? ==> fresh(r.value.Repr) && r.value.Valid() && r.value.tagName == "h4" && r.value.children == []
    ensures IsProperty(entry.annotation) ==> r.Ok?
    ensures IsProperty(entry.annotation) ==>
      r.value.text == PropertySignature(entry.annotation == STATICPROPERTY, TextOf(entry.Type()), entry.name) &&
      r.value.attributes == (if entry.name == "" then [] else [("id", entry.name)])
    ensures !IsProperty(entry.annotation) && entry.parameters.None? ==> r == Fail(NullDereference)
    ensures !IsProperty(entry.annotation) && entry.parameters.Some? ==>
      r.Ok? && r.value.text == CallableSignature(entry.annotation == STATICMETHOD,
                                        if entry.returnValue == null then "" else entry.returnValue.Type(),
                                        entry.name, entry.parameters.value) &&
      r.value.attributes == []
  {
    var isStatic := entry.annotation == STATICMETHOD || entry.annotation == STATICPROPERTY;
    if IsProperty(entry.annotation) {
      var node := NewPropertySignature(PropertySignature(isStatic, TextOf(entry.Type()), entry.name), entry.name);
      return Ok(node);
    }
    var returnType := if entry.returnValue == null then "" else entry.returnValue.Type();
    if entry.parameters.None? {
      return Fail(NullDereference);
    }
    var text := CallableSignatureText(isStatic, returnType, entry.name, entry.parameters.value);
    var node := new DOMNode.WithText("h4", text);
    return Ok(node);
  }

  /** The h4 of a property's signature, carrying the property's name as its id. */
  method NewPropertySignature(text: string, name: string) returns (node: DOMNode)
    ensures fresh(node.Repr) && node.Valid() && node.tagName == "h4" && node.children == []
    ensures node.text == text && node.attributes == (if name == "" then [] else [("id", name)])
  {
    node := new DOMNode.WithText("h4", text);
    node.AddAttribute("id", name);
  }

  // ----- Guards and tables -----

  /** buildDescription(text): nothing for an empty text, else a div of class "description". */
  method BuildDescription(text: string) returns (r: DOMNode?)
    ensures r == null <==> text == ""
    ensures r != null ==> fresh(r.Repr) && r.Valid() && r.tagName == "div" && r.text == text
    ensures r != null ==> r.attributes == [("class", "description")] && r.children == []
  {
    if |text| == 0 {
      return null;
    }
    r := new DOMNode.WithText("div", text);
    r.AddAttribute("class", "description");
  }

  /** A table row holding a header cell and a data cell with the given texts. */
  predicate RowOf(row: DOMNode, cells: (string, string))
    reads row, set i | 0 <= i < |row.children| :: row.children[i]
  {
    row.tagName == "tr" && |row.children| == 2 &&
    row.children[0].tagName == "th" && row.children[0].text == cells.0 &&
    row.children[1].tagName == "td" && row.children[1].text == cells.1
  }

  /** A new row of two cells with the given tags and texts. */
  method NewRow(leftTag: string, left: string, rightTag: string, right: string) returns (tr: DOMNode)
    ensures fresh(tr) && tr.Valid() && tr.tagName == "tr" && tr.attributes == [] && |tr.children| == 2
    ensures tr.children[0].tagName == leftTag && tr.children[0].text == left
    ensures tr.children[1].tagName == rightTag && tr.children[1].text == right
  {
    var l := new DOMNode.WithText(leftTag, left);
    var r := new DOMNode.WithText(rightTag, right);
    tr := new DOMNode("tr");
    tr.AppendNode(l);
    tr.AppendNode(r);
  }

  /** The given nodes, in order, as the children of a new element. */
  method NewParent(tag: string, kids: seq<DOMNode>) returns (n: DOMNode)
    requires forall i :: 0 <= i < |kids| ==> kids[i].Valid()
    ensures fresh(n) && n.Valid() && n.tagName == tag && n.text == "" && n.attributes == [] && n.children == kids
  {
    n := new DOMNode(tag);
    for i := 0 to |kids|
      invariant n.Valid() && n.tagName == tag && n.text == "" && n.attributes == [] && n.children == kids[..i]
    {
      n.AppendNode(kids[i]);
      assert kids[..i + 1] == kids[..i] + [kids[i]];
    }
    assert kids[..|kids|] == kids;
  }

  /** buildParamTable(classAttr, tableList): one row per pair, in list order. */
  method BuildParamTable(classAttr: string, rows: seq<(string, string)>) returns (table: DOMNode)
    ensures fresh(table) && table.Valid() && table.tagName == "table"
    ensures table.attributes == (if classAttr == "" then [] else [("class", classAttr)])
    ensures |table.children| == 1 && table.children[0].tagName == "tbody"
    ensures |table.children[0].children| == |rows|
    ensures forall i :: 0 <= i < |rows| ==> RowOf(table.children[0].children[i], rows[i])
  {
    var rowNodes: seq<DOMNode> := [];
    for i := 0 to |rows|
      invariant |rowNodes| == i
      invariant forall j :: 0 <= j < i ==> rowNodes[j].Valid() && RowOf(rowNodes[j], rows[j])
    {
      var tr := NewRow("th", rows[i].0, "td", rows[i].1);
      rowNodes := rowNodes + [tr];
    }
    var tbody := NewParent("tbody", rowNodes);
    table := new DOMNode("table");
    table.AddAttribute("class", classAttr);
    table.AppendNode(tbody);
  }
  /**
   * The (name, description) pairs of the parameters, in order; the first
   * description whose links cannot be expanded stops the run.
   */
  function DescribedRows(ps: seq<Parameter>): (r: Result<seq<(string, string)>>)
    reads set i | 0 <= i < |ps| :: ps[i]
    ensures r.Ok? ==> |r.value| == |ps|
  {
    if ps == [] then Ok([])
    else
      var init := DescribedRows(ps[..|ps| - 1]);
      var d := ps[|ps| - 1].Description();
      if init.Fail? then init
      else if d.Fail? then Fail(d.failure)
      else Ok(init.value + [(ps[|ps| - 1].name, d.value)])
  }

  /** The pairs exist exactly when every description expands, and pair i is parameter i's name and description. */
  lemma {:induction false} DescribedRowsSpec(ps: seq<Parameter>)
    ensures DescribedRows(ps).Ok? <==> forall i :: 0 <= i < |ps| ==> ps[i].Description().Ok?
    ensures DescribedRows(ps).Ok? ==>
      forall i :: 0 <= i < |ps| ==> DescribedRows(ps).value[i] == (ps[i].name, ps[i].Description().value)
  {
    if ps != [] {
      var init := ps[..|ps| - 1];
      DescribedRowsSpec(init);
      assert forall i :: 0 <= i < |init| ==> init[i] == ps[i];
    }
  }

  /**
   * buildMethodParamsTable(method): nothing when the parameter list is
   * empty, else a "parametersContainer" div holding a "Parameters" title and
   * a "parametersTable" with one row per parameter; a missing parameter list
   * throws.
   */
  method BuildMethodParamsTable(m: Entry) returns (r: Result<DOMNode?>)
    ensures m.parameters.None? ==> r == Fail(NullDereference)
    ensures m.parameters.Some? && m.parameters.value == [] ==> r == Ok(null)
    ensures m.parameters.Some? && m.parameters.value != [] ==>
      (r.Fail? <==> DescribedRows(m.parameters.value).Fail?) && (r.Ok? ==> r.value != null)
    ensures r.Ok? && r.value != null ==>
      fresh(r.value) && r.value.Valid() && r.value.tagName == "div" &&
      r.value.attributes == [("class", "parametersContainer")] && |r.value.children| == 2 &&
      r.value.children[0].text == "Parameters" &&
      r.value.children[1].tagName == "table" && |r.value.children[1].children| == 1 &&
      var tbody := r.value.children[1].children[0];
      |tbody.children| == |m.parameters.value| &&
      forall i :: 0 <= i < |tbody.children| ==> RowOf(tbody.children[i], DescribedRows(m.parameters.value).value[i])
  {
    if m.parameters.None? {
      return Fail(NullDereference);
    }
    var ps := m.parameters.value;
    if |ps| == 0 {
      return Ok(null);
    }
    var tableList := DescribeParams(ps);
    if tableList.Fail? {
      return Fail(tableList.failure);
    }
    var container := ParamsContainer(tableList.value);
    return Ok(container);
  }

  /** The loop of buildMethodParamsTable that collects each parameter's name and description. */
  method DescribeParams(ps: seq<Parameter>) returns (r: Result<seq<(string, string)>>)
    ensures r == DescribedRows(ps)
  {
    var tableList: seq<(string, string)> := [];
    for i := 0 to |ps|
      invariant DescribedRows(ps[..i]) == Ok(tableList)
    {
      assert ps[..i + 1][..i] == ps[..i];
      var d := ps[i].Description();
      if d.Fail? {
        PrefixFails(ps, i + 1);
        return Fail(d.failure);
      }
      tableList := tableList + [(ps[i].name, d.value)];
    }
    assert ps[..|ps|] == ps;
    return Ok(tableList);
  }

  /** The "parametersContainer" div: a "Parameters" title and a "parametersTable" of the rows. */
  method ParamsContainer(rows: seq<(string, string)>) returns (container: DOMNode)
    ensures fresh(container) && container.Valid() && container.tagName == "div"
    ensures container.attributes == [("class", "parametersContainer")] && |container.children| == 2
    ensures container.children[0].text == "Parameters"
    ensures container.children[1].tagName == "table" && |container.children[1].children| == 1
    ensures |container.children[1].children[0].children| == |rows|
    ensures forall i :: 0 <= i < |rows| ==> RowOf(container.children[1].children[0].children[i], rows[i])
  {
    var title := new DOMNode.WithText("span", "Parameters");
    title.AddAttribute("class", "parametersTitle");
    var table := BuildParamTable("parametersTable", rows);
    container := NewParent("div", [title, table]);
    container.AddAttribute("class", "parametersContainer");
  }

  /** A failing prefix makes the whole list fail, with the prefix's failure. */
  lemma {:induction false} PrefixFails(ps: seq<Parameter>, n: nat)
    requires n <= |ps| && DescribedRows(ps[..n]).Fail?
    ensures DescribedRows(ps) == DescribedRows(ps[..n])
    decreases |ps| - n
  {
    if n < |ps| {
      assert ps[..n + 1][..n] == ps[..n];
      PrefixFails(ps, n + 1);
    } else {
      assert ps[..n] == ps;
    }
  }

  /**
   * buildReturnsTable(method): nothing when the return value is absent or
   * empty, else a "returnsTable" whose body holds the "returns" header and a
   * row with the entry's type and description.
   */
  method BuildReturnsTable(m: Entry) returns (r: Result<DOMNode?>)
    ensures m.returnValue == null || m.returnValue.IsEmpty() ==> r == Ok(null)
    ensures m.returnValue != null && !m.returnValue.IsEmpty() ==>
      (r.Fail? <==> m.Description().Fail?) && (r.Ok? ==> r.value != null)
    ensures r.Ok? && r.value != null ==>
      fresh(r.value) && r.value.Valid() && r.value.tagName == "table" &&
      r.value.attributes == [("class", "returnsTable")] && |r.value.children| == 1 &&
      var tbody := r.value.children[0];
      |tbody.children| == 2 && tbody.children[0].text == "<strong>returns</strong>" &&
      RowCells(tbody.children[1], TextOf(m.Type()), m.Description().value)
  {
    var rv := m.returnValue;
    if rv == null || rv.IsEmpty() {
      return Ok(null);
    }
    var description := m.Description();
    if description.Fail? {
      return Fail(description.failure);
    }
    var header := new DOMNode.WithText("th", "<strong>returns</strong>");
    var row := NewRow("td", TextOf(m.Type()), "td", description.value);
    var tbody := NewParent("tbody", [header, row]);
    var table := NewParent("table", [tbody]);
    table.AddAttribute("class", "returnsTable");
    return Ok(table);
  }

  /** A row of two data cells with the given texts. */
  predicate RowCells(row: DOMNode, left: string, right: string)
    reads row, set i | 0 <= i < |row.children| :: row.children[i]
  {
    row.tagName == "tr" && |row.children| == 2 && row.children[0].text == left && row.children[1].text == right
  }

  // ----- Name order -----

  /** Strictly increasing in String.compareTo order, hence without repetitions. */
  predicate Increasing(ks: seq<string>) {
    forall i, j :: 0 <= i < j < |ks| ==> CompareTo(ks[i], ks[j]) < 0
  }

  /**
   * ks lists in increasing order the names of m that are not in unseen, and
   * each of them is below every name still unseen.
   */
  predicate VisitedBelow(m: map<string, Entry>, ks: seq<string>, unseen: set<string>) {
    unseen <= m.Keys &&
    (forall k :: k in m ==> k in ks || k in unseen) &&
    (forall i :: 0 <= i < |ks| ==> ks[i] in m && ks[i] !in unseen) &&
    Increasing(ks) &&
    (forall i, x :: 0 <= i < |ks| && x in unseen ==> CompareTo(ks[i], x) < 0) &&
    |ks| + |unseen| == |m|
  }

  /** Visiting the least unseen name keeps the visited names ordered and below the rest. */
  lemma VisitLeast(m: map<string, Entry>, ks: seq<string>, unseen: set<string>, k: string)
    requires VisitedBelow(m, ks, unseen)
    requires k in unseen && forall x :: x in unseen ==> CompareTo(k, x) <= 0
    ensures VisitedBelow(m, ks + [k], unseen - {k})
  {
    var ks', unseen' := ks + [k], unseen - {k};
    VisitedStayOrdered(ks, unseen, k);
    VisitedStayBelow(ks, unseen, k);
    forall i | 0 <= i < |ks'|
      ensures ks'[i] in m && ks'[i] !in unseen'
    {
      if i < |ks| {
        assert ks'[i] == ks[i];
      }
    }
    forall x | x in m
      ensures x in ks' || x in unseen'
    {
      if x == k {
        assert ks'[|ks|] == k;
      } else if x in ks {
        var i :| 0 <= i < |ks| && ks[i] == x;
        assert ks'[i] == x;
      }
    }
    assert |unseen'| == |unseen| - 1;
  }

  /** An unseen name, appended after the visited ones, keeps them increasing. */
  lemma VisitedStayOrdered(ks: seq<string>, unseen: set<string>, k: string)
    requires Increasing(ks) && k in unseen
    requires forall i, x :: 0 <= i < |ks| && x in unseen ==> CompareTo(ks[i], x) < 0
    ensures Increasing(ks + [k])
  {
    var ks' := ks + [k];
    forall i, j | 0 <= i < j < |ks'|
      ensures CompareTo(ks'[i], ks'[j]) < 0
    {
      if j < |ks| {
        assert ks'[i] == ks[i] && ks'[j] == ks[j];
      } else {
        assert ks'[i] == ks[i] && ks'[j] == k;
      }
    }
  }

  /** The least unseen name, once visited, is below every name still unseen. */
  lemma VisitedStayBelow(ks: seq<string>, unseen: set<string>, k: string)
    requires k in unseen && forall x :: x in unseen ==> CompareTo(k, x) <= 0
    requires forall i, x :: 0 <= i < |ks| && x in unseen ==> CompareTo(ks[i], x) < 0
    ensures forall i, x :: 0 <= i < |ks| + 1 && x in unseen - {k} ==> CompareTo((ks + [k])[i], x) < 0
  {
    forall i, x | 0 <= i < |ks| + 1 && x in unseen - {k}
      ensures CompareTo((ks + [k])[i], x) < 0
    {
      if i == |ks| {
        assert (ks + [k])[i] == k;
        assert CompareTo(k, x) != 0;
      } else {
        assert (ks + [k])[i] == ks[i];
      }
    }
  }

  /**
   * The names of a name-ordered set in the order its iterator visits them:
   * each step takes the least name not yet visited.
   */
  method InNameOrder(m: map<string, Entry>) returns (ks: seq<string>)
    ensures Increasing(ks) && |ks| == |m|
    ensures forall i :: 0 <= i < |ks| ==> ks[i] in m
    ensures forall k :: k in m ==> k in ks
  {
    var unseen := m.Keys;
    ks := [];
    while unseen != {}
      invariant VisitedBelow(m, ks, unseen)
      decreases |unseen|
    {
      LeastExists(unseen);
      var k :| k in unseen && forall x :: x in unseen ==> CompareTo(k, x) <= 0;
      VisitLeast(m, ks, unseen, k);
      ks := ks + [k];
      unseen := unseen - {k};
    }
  }

  // ----- Summary tables -----

  /** buildLink(text, href, postText): a span whose text is the serialised link followed by postText. */
  method BuildLink(text: string, href: string, postText: string) returns (span: DOMNode)
    ensures fresh(span) && span.Valid() && span.tagName == "span" && span.attributes == [] && span.children == []
    ensures span.text == " " + AnchorText(text, href) + " " + postText
  {
    var a := NewAnchor(text, href);
    var link := a.ToString();
    span := new DOMNode("span");
    span.AppendText(link);
    span.AppendText(postText);
  }

  // ----- Sidebar -----

  /** The inline style that indents a sidebar link by its nesting level. */
  function MarginLeft(level: nat): string {
    "margin-left: " + NatToString(level) + "em;"
  }

  /** The link of a sidebar entry: the entry's name, pointing at its page, indented by the level. */
  predicate SidebarLink(a: DOMNode, name: string, level: nat)
    reads a
  {
    a.tagName == "a" && a.text == name && a.children == [] &&
    a.attributes == [("href", name + ".html"), ("style", MarginLeft(level))]
  }

  /** The empty div that folds and unfolds nested namespaces. */
  predicate FoldMarker(fold: DOMNode)
    reads fold
  {
    fold.tagName == "div" && fold.text == "" && fold.children == [] &&
    fold.attributes == [("class", "namespaceFold entypo-right-open")]
  }

  /**
   * What the sidebar shows of a class or namespace: its name and, unless the
   * set is missing, its nested namespaces by name.
   */
  datatype NamespaceTree = NamespaceTree(name: string, nested: Option<map<string, NamespaceTree>>)

  /**
   * t is what the sidebar shows of e: e's name and, level by level, its
   * nested namespaces under the same names; e and every namespace below it
   * are among univ, and the tree is at most depth levels deep.
   */
  ghost predicate Mirrors(e: Entry, t: NamespaceTree, depth: nat, univ: set<Entry>)
    reads univ
    decreases depth
  {
    e in univ && e.name == t.name && e.nestedNamespaces.Some? == t.nested.Some? &&
    (e.nestedNamespaces.Some? ==>
      e.nestedNamespaces.value.Keys == t.nested.value.Keys &&
      forall k :: k in e.nestedNamespaces.value ==>
        depth > 0 && Mirrors(e.nestedNamespaces.value[k], t.nested.value[k], depth - 1, univ))
  }

  /** Whether building the sidebar entry of t meets a namespace without a nested-namespace set. */
  predicate SidebarFails(t: NamespaceTree, depth: nat)
    decreases depth
  {
    t.nested.None? || (depth > 0 && exists k :: k in t.nested.value && SidebarFails(t.nested.value[k], depth - 1))
  }

  /** ks lists every name of a name-ordered set once, in increasing order. */
  predicate NameOrder<T>(ks: seq<string>, m: map<string, T>) {
    Increasing(ks) && |ks| == |m| && forall i :: 0 <= i < |ks| ==> ks[i] in m
  }

  /**
   * n is the sidebar entry of t at the given level: a div holding the link,
   * and, when there are nested namespaces, the fold marker and the div of
   * the nested entries.
   */
  ghost predicate SidebarOf(n: DOMNode, t: NamespaceTree, level: nat, depth: nat)
    reads n, n.Repr
    decreases depth, 1
  {
    n.Valid() && t.nested.Some? &&
    n.tagName == "div" && n.text == "" && 1 <= |n.children| && SidebarLink(n.children[0], t.name, level) &&
    if |t.nested.value| == 0 then
      |n.children| == 1 && n.attributes == []
    else
      |n.children| == 3 && n.attributes == [("class", "hasNamespaces")] && FoldMarker(n.children[1]) &&
      NestedDiv(n.children[2], t.nested.value, level + 1, depth)
  }

  /**
   * nested is the "nestedNamespaces" div of a sidebar entry: the sidebar
   * entries of the trees of ns at the given level, in name order.
   */
  ghost predicate NestedDiv(nested: DOMNode, ns: map<string, NamespaceTree>, level: nat, depth: nat)
    reads nested, nested.Repr
    decreases depth, 0
  {
    nested.Valid() && nested.tagName == "div" && nested.text == "" &&
    nested.attributes == [("class", "nestedNamespaces")] &&
    exists ks :: NameOrder(ks, ns) && |ks| == |nested.children| &&
      forall i :: 0 <= i < |ks| ==> depth > 0 && SidebarOf(nested.children[i], ns[ks[i]], level, depth - 1)
  }

  /** The link of a sidebar entry. */
  method NewSidebarLink(name: string, level: nat) returns (a: DOMNode)
    ensures fresh(a) && a.Valid() && SidebarLink(a, name, level)
  {
    a := new DOMNode.WithText("a", name);
    a.AddAttribute("href", name + ".html");
    a.AddAttribute("style", MarginLeft(level));
  }

  /** The marker that folds and unfolds the nested namespaces of a sidebar entry. */
  method NewFoldMarker() returns (fold: DOMNode)
    ensures fresh(fold) && fold.Valid() && FoldMarker(fold)
  {
    fold := new DOMNode("div");
    fold.AddAttribute("class", "namespaceFold entypo-right-open");
  }

  /** A new element with one class attribute over the given children. */
  method NewClassedParent(tag: string, cls: string, kids: seq<DOMNode>) returns (n: DOMNode)
    requires cls != ""
    requires forall i :: 0 <= i < |kids| ==> kids[i].Valid()
    ensures fresh(n) && n.Valid() && n.tagName == tag && n.text == "" && n.children == kids
    ensures n.attributes == [("class", cls)]
  {
    n := NewParent(tag, kids);
    n.AddAttribute("class", cls);
  }

  /**
   * buildSidebarEntry(entry, nestedLevel): the sidebar entry of a class or
   * namespace and, recursively, of its nested namespaces; a namespace
   * without a nested-namespace set throws.
   */
  method BuildSidebarEntryAt(entry: Entry, level: nat, ghost t: NamespaceTree, ghost depth: nat, ghost univ: set<Entry>)
    returns (r: Result<DOMNode>)
    requires Mirrors(entry, t, depth, univ)
    ensures r.Fail? <==> SidebarFails(t, depth)
    ensures r.Fail? ==> r.failure == NullDereference
    ensures r.Ok? ==> fresh(r.value) && SidebarOf(r.value, t, level, depth)
    decreases depth, 4
  {
    var link := NewSidebarLink(entry.name, level);
    if entry.nestedNamespaces.None? {
      return Fail(NullDereference);
    }
    var ns := entry.nestedNamespaces.value;
    if |ns| == 0 {
      var div := NewParent("div", [link]);
      return Ok(div);
    }
    r := BuildFoldingEntry(ns, link, level, t, depth, univ);
  }

  /** The sidebar entry of a class or namespace with nested namespaces: its link, the fold marker and the nested entries. */
  method BuildFoldingEntry(ns: map<string, Entry>, link: DOMNode, level: nat, ghost t: NamespaceTree,
                           ghost depth: nat, ghost univ: set<Entry>)
    returns (r: Result<DOMNode>)
    requires t.nested.Some? && |ns| > 0 && t.nested.value.Keys == ns.Keys
    requires depth > 0 && forall k :: k in ns ==> Mirrors(ns[k], t.nested.value[k], depth - 1, univ)
    requires link.Valid() && SidebarLink(link, t.name, level)
    ensures r.Fail? <==> exists k :: k in t.nested.value && SidebarFails(t.nested.value[k], depth - 1)
    ensures r.Fail? ==> r.failure == NullDereference
    ensures r.Ok? ==> fresh(r.value) && SidebarOf(r.value, t, level, depth)
    decreases depth, 3
  {
    var fold := NewFoldMarker();
    var nested := BuildNestedEntries(ns, level + 1, t.nested.value, depth, univ);
    if nested.Fail? {
      return Fail(nested.failure);
    }
    var div := JoinSidebarEntry(t, link, fold, nested.value, level, depth);
    return Ok(div);
  }

  /** The "hasNamespaces" div of a sidebar entry, around its link, fold marker and nested entries. */
  method JoinSidebarEntry(ghost t: NamespaceTree, link: DOMNode, fold: DOMNode, nested: DOMNode, level: nat,
                          ghost depth: nat) returns (div: DOMNode)
    requires t.nested.Some? && |t.nested.value| > 0
    requires link.Valid() && SidebarLink(link, t.name, level)
    requires fold.Valid() && FoldMarker(fold)
    requires NestedDiv(nested, t.nested.value, level + 1, depth)
    ensures fresh(div) && SidebarOf(div, t, level, depth)
  {
    div := NewClassedParent("div", "hasNamespaces", [link, fold, nested]);
  }

  /**
   * The "nestedNamespaces" div of buildSidebarEntry: the sidebar entries of
   * the namespaces of ns, one level deeper, in the order the set iterates.
   */
  method BuildNestedEntries(ns: map<string, Entry>, level: nat, ghost trees: map<string, NamespaceTree>,
                            ghost depth: nat, ghost univ: set<Entry>)
    returns (r: Result<DOMNode>)
    requires |ns| > 0 && depth > 0 && trees.Keys == ns.Keys
    requires forall k :: k in ns ==> Mirrors(ns[k], trees[k], depth - 1, univ)
    ensures r.Fail? <==> exists k :: k in trees && SidebarFails(trees[k], depth - 1)
    ensures r.Fail? ==> r.failure == NullDereference
    ensures r.Ok? ==> fresh(r.value) && NestedDiv(r.value, trees, level, depth)
    decreases depth, 2
  {
    var ks := InNameOrder(ns);
    var kids := BuildNestedKids(ns, ks, level, trees, depth, univ);
    if kids.Fail? {
      return Fail(kids.failure);
    }
    var nested := JoinNestedEntries(trees, ks, kids.value, level, depth);
    return Ok(nested);
  }

  /** The loop of buildSidebarEntry over the nested namespaces, taken in the order ks. */
  method BuildNestedKids(ns: map<string, Entry>, ks: seq<string>, level: nat, ghost trees: map<string, NamespaceTree>,
                         ghost depth: nat, ghost univ: set<Entry>)
    returns (r: Result<seq<DOMNode>>)
    requires depth > 0 && trees.Keys == ns.Keys
    requires forall j :: 0 <= j < |ks| ==> ks[j] in ns
    requires forall k :: k in ns ==> Mirrors(ns[k], trees[k], depth - 1, univ)
    ensures r.Fail? <==> exists j :: 0 <= j < |ks| && SidebarFails(trees[ks[j]], depth - 1)
    ensures r.Fail? ==> r.failure == NullDereference
    ensures r.Ok? ==> |r.value| == |ks|
    ensures r.Ok? ==> forall j :: 0 <= j < |ks| ==> SidebarOf(r.value[j], trees[ks[j]], level, depth - 1)
    decreases depth, 1
  {
    var kids: seq<DOMNode> := [];
    for i := 0 to |ks|
      invariant |kids| == i
      invariant forall k :: k in ns ==> Mirrors(ns[k], trees[k], depth - 1, univ)
      invariant forall j :: 0 <= j < i ==> allocated(kids[j].Repr)
      invariant forall j :: 0 <= j < i ==> SidebarOf(kids[j], trees[ks[j]], level, depth - 1)
      invariant forall j :: 0 <= j < i ==> !SidebarFails(trees[ks[j]], depth - 1)
    {
      var next := AppendNestedEntry(ns, ks, i, kids, level, trees, depth, univ);
      if next.Fail? {
        return Fail(next.failure);
      }
      kids := next.value;
    }
    return Ok(kids);
  }

  /** One turn of the loop over the nested namespaces: the sidebar entry of the i-th name appended to kids. */
  method AppendNestedEntry(ns: map<string, Entry>, ks: seq<string>, i: nat, kids: seq<DOMNode>, level: nat,
                           ghost trees: map<string, NamespaceTree>, ghost depth: nat, ghost univ: set<Entry>)
    returns (r: Result<seq<DOMNode>>)
    requires depth > 0 && trees.Keys == ns.Keys && i < |ks| && |kids| == i
    requires forall j :: 0 <= j < |ks| ==> ks[j] in ns
    requires forall k :: k in ns ==> Mirrors(ns[k], trees[k], depth - 1, univ)
    requires forall j :: 0 <= j < i ==> allocated(kids[j].Repr)
    requires forall j :: 0 <= j < i ==> SidebarOf(kids[j], trees[ks[j]], level, depth - 1)
    requires forall j :: 0 <= j < i ==> !SidebarFails(trees[ks[j]], depth - 1)
    ensures r.Fail? <==> SidebarFails(trees[ks[i]], depth - 1)
    ensures r.Ok? ==> forall j :: 0 <= j <= i ==> !SidebarFails(trees[ks[j]], depth - 1)
    ensures r.Fail? ==> r.failure == NullDereference
    ensures r.Ok? ==> |r.value| == i + 1
    ensures r.Ok? ==> forall j :: 0 <= j <= i ==> allocated(r.value[j].Repr)
    ensures r.Ok? ==> forall j :: 0 <= j <= i ==> SidebarOf(r.value[j], trees[ks[j]], level, depth - 1)
    decreases depth, 0
  {
    var child := BuildSidebarEntryAt(ns[ks[i]], level, trees[ks[i]], depth - 1, univ);
    if child.Fail? {
      return Fail(child.failure);
    }
    SnocSidebar(kids, child.value, ks, trees, level, depth - 1);
    SnocAllocated(kids, child.value);
    NoFailureSnoc(ks, i, trees, depth - 1);
    return Ok(kids + [child.value]);
  }

  /** The names before i and the i-th one all build without failure. */
  lemma NoFailureSnoc(ks: seq<string>, i: nat, trees: map<string, NamespaceTree>, depth: nat)
    requires i < |ks| && forall j :: 0 <= j < |ks| ==> ks[j] in trees
    requires forall j :: 0 <= j < i ==> !SidebarFails(trees[ks[j]], depth)
    requires !SidebarFails(trees[ks[i]], depth)
    ensures forall j :: 0 <= j <= i ==> !SidebarFails(trees[ks[j]], depth)
  {
  }

  /** A sidebar entry appended to entries in name order extends them by one name. */
  lemma SnocSidebar(kids: seq<DOMNode>, c: DOMNode, ks: seq<string>, trees: map<string, NamespaceTree>,
                    level: nat, depth: nat)
    requires |kids| < |ks| && forall j :: 0 <= j < |ks| ==> ks[j] in trees
    requires forall j :: 0 <= j < |kids| ==> SidebarOf(kids[j], trees[ks[j]], level, depth)
    requires SidebarOf(c, trees[ks[|kids|]], level, depth)
    ensures forall j :: 0 <= j <= |kids| ==>
      SidebarOf((kids + [c])[j], trees[ks[j]], level, depth)
  {
    forall j | 0 <= j <= |kids|
      ensures SidebarOf((kids + [c])[j], trees[ks[j]], level, depth)
    {
      if j < |kids| {
        assert (kids + [c])[j] == kids[j];
      } else {
        assert (kids + [c])[j] == c;
      }
    }
  }

  /** Appending a node whose objects are allocated keeps every node's objects allocated. */
  lemma SnocAllocated(kids: seq<DOMNode>, c: DOMNode)
    requires forall j :: 0 <= j < |kids| ==> allocated(kids[j].Repr)
    requires allocated(c.Repr)
    ensures forall j :: 0 <= j <= |kids| ==> allocated((kids + [c])[j].Repr)
  {
    forall j | 0 <= j <= |kids|
      ensures allocated((kids + [c])[j].Repr)
    {
      if j < |kids| {
        assert (kids + [c])[j] == kids[j];
      }
    }
  }

  /** The "nestedNamespaces" div around the sidebar entries of ns, built in name order. */
  method JoinNestedEntries(ghost ns: map<string, NamespaceTree>, ghost ks: seq<string>, kids: seq<DOMNode>,
                           level: nat, ghost depth: nat) returns (nested: DOMNode)
    requires NameOrder(ks, ns) && |kids| == |ks| && depth > 0
    requires forall j :: 0 <= j < |kids| ==> SidebarOf(kids[j], ns[ks[j]], level, depth - 1)
    requires forall j :: 0 <= j < |ks| ==> !SidebarFails(ns[ks[j]], depth - 1)
    requires forall k :: k in ns ==> k in ks
    ensures fresh(nested) && NestedDiv(nested, ns, level, depth)
    ensures forall k :: k in ns ==> !SidebarFails(ns[k], depth - 1)
  {
    forall k | k in ns
      ensures !SidebarFails(ns[k], depth - 1)
    {
      var j :| 0 <= j < |ks| && ks[j] == k;
    }
    nested := NewClassedParent("div", "nestedNamespaces", kids);
  }

  /**
   * buildSidebarEntry(entry): the sidebar entry of a top-level class or
   * namespace, at level 1, for the tree t that the entry mirrors.
   */
  method BuildSidebarEntry(entry: Entry, ghost t: NamespaceTree, ghost depth: nat, ghost univ: set<Entry>)
    returns (r: Result<DOMNode>)
    requires Mirrors(entry, t, depth, univ)
    ensures r.Fail? <==> SidebarFails(t, depth)
    ensures r.Ok? ==> fresh(r.value) && SidebarOf(r.value, t, 1, depth)
  {
    r := BuildSidebarEntryAt(entry, 1, t, depth, univ);
  }

  /** buildSummaryTableTitle(text): a header row linking to the section of that title. */
  method BuildSummaryTableTitle(text: string) returns (tr: DOMNode)
    ensures fresh(tr) && tr.Valid() && tr.tagName == "tr"
    ensures tr.attributes == [("class", "summaryTableHeader")] && |tr.children| == 1
    ensures tr.children[0].tagName == "th" && |tr.children[0].children| == 1
    ensures tr.children[0].children[0].tagName == "a" && tr.children[0].children[0].text == text
    ensures tr.children[0].children[0].attributes == [("href", "#section-" + text)]
  {
    var a := new DOMNode.WithText("a", text);
    a.AddAttribute("href", "#section-" + text);
    var th := NewParent("th", [a]);
    th.AddAttribute("colspan", "12");
    tr := NewParent("tr", [th]);
    tr.AddAttribute("class", "summaryTableHeader");
  }

  /** The return type a two-column summary row shows: "" without a return value. */
  function ReturnTypeOf(e: Entry): string
    reads e, e.returnValue
  {
    if e.returnValue == null then "" else e.returnValue.Type()
  }

  /** Whether the row of e in a two-column summary table can be built. */
  predicate TwoColRowFails(e: Entry)
    reads e
  {
    e.parameters.None? || e.Description().Fail?
  }

  /** The type cell of a summary row: class "propTypeCol", and italics for "undefined" when asked for. */
  method TypeCell(typeText: string, italicUndefined: bool) returns (td: DOMNode)
    ensures fresh(td) && td.Valid() && td.tagName == "td" && td.text == typeText && td.children == []
    ensures td.attributes ==
      [("class", "propTypeCol")] + (if italicUndefined && typeText == "undefined" then [("style", "font-style: italic;")] else [])
  {
    td := new DOMNode.WithText("td", typeText);
    td.AddAttribute("class", "propTypeCol");
    if italicUndefined {
      td.AddAttribute("style", if typeText == "undefined" then "font-style: italic;" else "");
    }
  }

  /** The row of a two-column summary table, from the texts it shows. */
  method TwoColRow(typeText: string, name: string, signature: string, description: string) returns (row: DOMNode)
    ensures fresh(row) && row.Valid() && row.tagName == "tr" && |row.children| == 2
    ensures row.attributes == [("class", "summaryTableBody")]
    ensures row.children[0].text == typeText
    ensures row.children[0].attributes ==
      [("class", "propTypeCol")] + (if typeText == "undefined" then [("style", "font-style: italic;")] else [])
  {
    var typeCell := TypeCell(typeText, true);
    var link := BuildLink(name, "#" + name, signature);
    var descriptionDiv := new DOMNode.WithText("div", description);
    descriptionDiv.AddAttribute("class", "descrDiv");
    var nameCell := NewParent("td", [link, descriptionDiv]);
    nameCell.AddAttribute("width", "100%");
    row := NewParent("tr", [typeCell, nameCell]);
    row.AddAttribute("class", "summaryTableBody");
  }

  /**
   * One row of a two-column summary table: the return type (in italics when
   * "undefined"), then a cell with the linked name, the parameter names and
   * the description. An entry without a parameter list throws.
   */
  method SummaryRowTwoCol(e: Entry) returns (r: Result<DOMNode>)
    ensures e.parameters.None? ==> r == Fail(NullDereference)
    ensures r.Fail? <==> TwoColRowFails(e)
    ensures r.Ok? ==> fresh(r.value) && r.value.Valid() && r.value.tagName == "tr" && |r.value.children| == 2
    ensures r.Ok? ==> r.value.attributes == [("class", "summaryTableBody")]
    ensures r.Ok? ==> r.value.children[0].text == ReturnTypeOf(e)
    ensures r.Ok? ==>
      r.value.children[0].attributes ==
        [("class", "propTypeCol")] + (if ReturnTypeOf(e) == "undefined" then [("style", "font-style: italic;")] else [])
  {
    var typeText := ReturnTypeOf(e);
    var description := e.Description();
    var signature := BuildSignatureParamsString(e);
    if signature.Fail? {
      return Fail(signature.failure);
    }
    if description.Fail? {
      return Fail(description.failure);
    }
    var row := TwoColRow(typeText, e.name, signature.value, description.value);
    return Ok(row);
  }

  /** The row of a three-column summary table, from the texts it shows. */
  method ThreeColRow(typeText: string, name: string, href: string, description: string) returns (row: DOMNode)
    ensures fresh(row) && row.Valid() && row.tagName == "tr" && |row.children| == 3
    ensures row.attributes == [("class", "summaryTableBody")]
    ensures row.children[0].text == typeText && |row.children[1].children| == 1
    ensures row.children[1].children[0].text == name
    ensures row.children[1].children[0].attributes == (if href == "" then [] else [("href", href)])
    ensures row.children[2].text == description
  {
    var typeCell := TypeCell(typeText, false);
    var a := new DOMNode.WithText("a", name);
    a.AddAttribute("href", href);
    var nameCell := NewParent("td", [a]);
    var descriptionCell := new DOMNode.WithText("td", description);
    descriptionCell.AddAttribute("width", "100%");
    row := NewParent("tr", [typeCell, nameCell, descriptionCell]);
    row.AddAttribute("class", "summaryTableBody");
  }

  /**
   * One row of a three-column summary table: the type, the name linked to
   * its page (top-level links) or its anchor, and the description.
   */
  method SummaryRowThreeCol(e: Entry, topLevelLinks: bool) returns (r: Result<DOMNode>)
    ensures r.Fail? <==> e.Description().Fail?
    ensures r.Ok? ==> fresh(r.value) && r.value.Valid() && r.value.tagName == "tr" && |r.value.children| == 3
    ensures r.Ok? ==> r.value.attributes == [("class", "summaryTableBody")]
    ensures r.Ok? ==> r.value.children[0].text == TextOf(e.Type()) && |r.value.children[1].children| == 1
    ensures r.Ok? ==> r.value.children[1].children[0].text == e.name
    ensures r.Ok? ==>
      r.value.children[1].children[0].attributes == [("href", if topLevelLinks then e.name + ".html" else "#" + e.name)]
    ensures r.Ok? ==> r.value.children[2].text == e.Description().value
  {
    var description := e.Description();
    if description.Fail? {
      return Fail(description.failure);
    }
    var row := ThreeColRow(TextOf(e.Type()), e.name, if topLevelLinks then e.name + ".html" else "#" + e.name, description.value);
    return Ok(row);
  }

  /** Whether some row of a summary table over entries cannot be built. */
  predicate TableFails(entries: map<string, Entry>, twoCol: bool)
    reads entries.Values
  {
    exists k :: k in entries && RowFails(entries[k], twoCol)
  }

  /** Whether the row of e cannot be built, in a two- or a three-column summary table. */
  predicate RowFails(e: Entry, twoCol: bool)
    reads e
  {
    if twoCol then TwoColRowFails(e) else e.Description().Fail?
  }

  /** The entries of a summary table built from one entry that may be null. */
  function OneEntry(e: Entry?): (r: map<string, Entry>)
    ensures |r| == (if e == null then 0 else 1)
  {
    if e == null then map[] else map[e.name := e]
  }

  /** A summary table: a "summaryTable" whose body holds the title row and then n entry rows. */
  predicate SummaryTable(table: DOMNode, n: nat)
    reads table, set i | 0 <= i < |table.children| :: table.children[i]
  {
    table.tagName == "table" && table.attributes == [("class", "summaryTable")] &&
    |table.children| == 1 && table.children[0].tagName == "tbody" && |table.children[0].children| == n + 1
  }

  /** The table around the given rows: a "summaryTable" whose single tbody holds them. */
  method SummaryTableOf(rows: seq<DOMNode>) returns (table: DOMNode)
    requires |rows| > 0 && forall j :: 0 <= j < |rows| ==> rows[j].Valid()
    ensures fresh(table) && table.Valid() && SummaryTable(table, |rows| - 1)
  {
    var tbody := NewParent("tbody", rows);
    table := NewParent("table", [tbody]);
    table.AddAttribute("class", "summaryTable");
  }

  /** t is the summary table of entries, and null exactly when there are none. */
  ghost predicate TableOf(t: DOMNode?, entries: map<string, Entry>)
    reads t, if t == null then {} else t.Repr
  {
    (t == null <==> |entries| == 0) &&
    (t != null ==> t.Valid() && SummaryTable(t, |entries|))
  }

  /**
   * buildSummaryTableTwoCol(title, entries): nothing for an empty set, else
   * the title row and one row per entry in name order; the run stops when a
   * row cannot be built.
   */
  method BuildSummaryTableTwoCol(title: string, entries: map<string, Entry>) returns (r: Result<DOMNode?>)
    ensures r.Fail? <==> TableFails(entries, true)
    ensures r.Ok? ==> TableOf(r.value, entries)
  {
    if |entries| == 0 {
      return Ok(null);
    }
    var header := BuildSummaryTableTitle(title);
    var rows: seq<DOMNode> := [header];
    var ks := InNameOrder(entries);
    for i := 0 to |ks|
      invariant |rows| == i + 1
      invariant forall j :: 0 <= j < |rows| ==> rows[j].Valid()
      invariant forall j :: 0 <= j < i ==> !RowFails(entries[ks[j]], true)
    {
      var next := AppendTwoColRow(entries, ks, i, rows);
      if next.Fail? {
        return Fail(next.failure);
      }
      rows := next.value;
    }
    NoRowFails(entries, ks, true);
    var table := SummaryTableOf(rows);
    return Ok(table);
  }

  /** One turn of the loop over a two-column table's entries: the row of the i-th name appended to rows. */
  method AppendTwoColRow(entries: map<string, Entry>, ks: seq<string>, i: nat, rows: seq<DOMNode>)
    returns (r: Result<seq<DOMNode>>)
    requires i < |ks| && |rows| == i + 1 && forall j :: 0 <= j < |ks| ==> ks[j] in entries
    requires forall j :: 0 <= j < |rows| ==> rows[j].Valid()
    requires forall j :: 0 <= j < i ==> !RowFails(entries[ks[j]], true)
    ensures r.Fail? <==> RowFails(entries[ks[i]], true)
    ensures r.Ok? ==> |r.value| == i + 2 && forall j :: 0 <= j < |r.value| ==> r.value[j].Valid()
    ensures r.Ok? ==> forall j :: 0 <= j <= i ==> !RowFails(entries[ks[j]], true)
  {
    var row := SummaryRowTwoCol(entries[ks[i]]);
    if row.Fail? {
      return Fail(row.failure);
    }
    return Ok(rows + [row.value]);
  }

  /** When no name of ks has a failing row and ks lists every name, the table does not fail. */
  lemma NoRowFails(entries: map<string, Entry>, ks: seq<string>, twoCol: bool)
    requires forall k :: k in entries ==> k in ks
    requires forall j :: 0 <= j < |ks| ==> ks[j] in entries && !RowFails(entries[ks[j]], twoCol)
    ensures !TableFails(entries, twoCol)
  {
    forall k | k in entries
      ensures !RowFails(entries[k], twoCol)
    {
      var j :| 0 <= j < |ks| && ks[j] == k;
    }
  }

  /** buildSummaryTableTwoCol(title, entry): nothing for a null entry, else the table of that one entry. */
  method BuildSummaryTableTwoColOf(title: string, entry: Entry?) returns (r: Result<DOMNode?>)
    ensures entry == null ==> r == Ok(null)
    ensures entry != null ==> (r.Fail? <==> TwoColRowFails(entry))
    ensures r.Fail? <==> TableFails(OneEntry(entry), true)
    ensures r.Ok? ==> TableOf(r.value, OneEntry(entry))
  {
    if entry == null {
      return Ok(null);
    }
    r := BuildSummaryTableTwoCol(title, OneEntry(entry));
    assert entry.name in OneEntry(entry);
  }

  /**
   * buildSummaryTableThreeCol(title, entries, topLevelLinks): nothing for an
   * empty set, else the title row and one row per entry in name order.
   */
  method BuildSummaryTableThreeCol(title: string, entries: map<string, Entry>, topLevelLinks: bool)
    returns (r: Result<DOMNode?>)
    ensures r.Fail? <==> TableFails(entries, false)
    ensures r.Ok? ==> TableOf(r.value, entries)
  {
    if |entries| == 0 {
      return Ok(null);
    }
    var header := BuildSummaryTableTitle(title);
    var rows: seq<DOMNode> := [header];
    var ks := InNameOrder(entries);
    for i := 0 to |ks|
      invariant |rows| == i + 1
      invariant forall j :: 0 <= j < |rows| ==> rows[j].Valid()
      invariant forall j :: 0 <= j < i ==> !RowFails(entries[ks[j]], false)
    {
      var next := AppendThreeColRow(entries, ks, i, rows, topLevelLinks);
      if next.Fail? {
        return Fail(next.failure);
      }
      rows := next.value;
    }
    NoRowFails(entries, ks, false);
    var table := SummaryTableOf(rows);
    return Ok(table);
  }

  /** One turn of the loop over a three-column table's entries: the row of the i-th name appended to rows. */
  method AppendThreeColRow(entries: map<string, Entry>, ks: seq<string>, i: nat, rows: seq<DOMNode>, topLevelLinks: bool)
    returns (r: Result<seq<DOMNode>>)
    requires i < |ks| && |rows| == i + 1 && forall j :: 0 <= j < |ks| ==> ks[j] in entries
    requires forall j :: 0 <= j < |rows| ==> rows[j].Valid()
    requires forall j :: 0 <= j < i ==> !RowFails(entries[ks[j]], false)
    ensures r.Fail? <==> RowFails(entries[ks[i]], false)
    ensures r.Ok? ==> |r.value| == i + 2 && forall j :: 0 <= j < |r.value| ==> r.value[j].Valid()
    ensures r.Ok? ==> forall j :: 0 <= j <= i ==> !RowFails(entries[ks[j]], false)
  {
    var row := SummaryRowThreeCol(entries[ks[i]], topLevelLinks);
    if row.Fail? {
      return Fail(row.failure);
    }
    return Ok(rows + [row.value]);
  }

  /** The methods of e whose kind is k, as getMethods(k) copies them. */
  function MethodsOfKind(e: Entry, k: Kind): map<string, Entry>
    reads e
  {
    if e.methods.None? then map[] else KindFiltered(e.methods.value, [k])
  }

  /** The properties of e whose kind is k, as getProperties(k) copies them. */
  function PropertiesOfKind(e: Entry, k: Kind): map<string, Entry>
    reads e
  {
    if e.properties.None? then map[] else KindFiltered(e.properties.value, [k])
  }

  /**
   * The entry sets behind the seven summary tables, in page order: the
   * constructor, the nested namespaces, the instance and static properties,
   * the instance and static methods and the events.
   */
  function SummarySets(e: Entry): (r: seq<map<string, Entry>>)
    reads e
    ensures |r| == 7
  {
    [ OneEntry(e.constructorEntry),
      if e.nestedNamespaces.None? then map[] else e.nestedNamespaces.value,
      PropertiesOfKind(e, INSTANCEPROPERTY), PropertiesOfKind(e, STATICPROPERTY),
      MethodsOfKind(e, INSTANCEMETHOD), MethodsOfKind(e, STATICMETHOD), MethodsOfKind(e, EVENT) ]
  }

  /** The entries behind the summary tables are objects of the current heap. */
  lemma SummarySetsAllocated(e: Entry)
    ensures forall j, k :: 0 <= j < 7 && k in SummarySets(e)[j] ==> allocated(SummarySets(e)[j][k])
  {
    var sets := SummarySets(e);
    forall j, k | 0 <= j < 7 && k in sets[j]
      ensures allocated(sets[j][k])
    {
      if j == 0 {
        assert sets[j][k] == e.constructorEntry;
      } else if j == 1 {
        assert sets[j][k] in e.nestedNamespaces.value.Values;
      } else if j < 4 {
        assert sets[j][k] in e.properties.value.Values;
      } else {
        assert sets[j][k] in e.methods.value.Values;
      }
    }
  }

  /** Which of the seven summary tables have the two-column layout. */
  const TwoColumn: seq<bool> := [true, false, false, false, true, true, true]

  /** The titles of the seven summary tables. */
  const SummaryTitles: seq<string> :=
    ["Constructor", "Nested Namespaces", "Instance Properties", "Static Properties",
     "Instance Methods", "Static Methods", "Events"]

  /**
   * The i-th call of buildSummaryTables: its title, its entry set and its
   * layout; the nested-namespace table links to the namespaces' own pages.
   */
  method BuildSummaryTableAt(entry: Entry, i: nat) returns (r: Result<DOMNode?>)
    requires i < 7 && (i == 1 ==> entry.nestedNamespaces.Some?)
    ensures r.Fail? <==> TableFails(SummarySets(entry)[i], TwoColumn[i])
    ensures r.Ok? ==> TableOf(r.value, SummarySets(entry)[i])
  {
    if i == 0 {
      r := BuildSummaryTableTwoColOf(SummaryTitles[0], entry.constructorEntry);
    } else if i == 1 {
      r := BuildSummaryTableThreeCol(SummaryTitles[1], entry.nestedNamespaces.value, true);
    } else if i == 2 || i == 3 {
      var ps := entry.GetProperties([if i == 2 then INSTANCEPROPERTY else STATICPROPERTY]);
      r := BuildSummaryTableThreeCol(SummaryTitles[i], ps, false);
    } else {
      var ms := entry.GetMethods([if i == 4 then INSTANCEMETHOD else if i == 5 then STATICMETHOD else EVENT]);
      r := BuildSummaryTableTwoCol(SummaryTitles[i], ms);
    }
  }

  /**
   * buildSummaryTables(entry): the seven summary tables in page order, each
   * null when its set is empty; a missing nested-namespace set or a row that
   * cannot be built ends the run.
   */
  method BuildSummaryTables(entry: Entry) returns (r: Result<seq<DOMNode?>>)
    ensures r.Fail? <==>
      entry.nestedNamespaces.None? || exists i :: 0 <= i < 7 && TableFails(SummarySets(entry)[i], TwoColumn[i])
    ensures r.Ok? ==> |r.value| == 7
    ensures r.Ok? ==> forall i :: 0 <= i < 7 ==> TableOf(r.value[i], SummarySets(entry)[i])
  {
    var tables: seq<DOMNode?> := [];
    for i := 0 to 7
      invariant |tables| == i
      invariant i > 1 ==> entry.nestedNamespaces.Some?
      invariant forall j :: 0 <= j < i && tables[j] != null ==> allocated(tables[j].Repr)
      invariant forall j :: 0 <= j < i ==> TableOf(tables[j], SummarySets(entry)[j])
      invariant forall j :: 0 <= j < i ==> !TableFails(SummarySets(entry)[j], TwoColumn[j])
    {
      if i == 1 && entry.nestedNamespaces.None? {
        return Fail(NullDereference);
      }
      SummarySetsAllocated(entry);
      var next := AppendSummaryTable(entry, i, tables);
      if next.Fail? {
        return Fail(next.failure);
      }
      tables := next.value;
    }
    return Ok(tables);
  }

  /** One turn of the loop of buildSummaryTables: the i-th summary table appended to tables. */
  method AppendSummaryTable(entry: Entry, i: nat, tables: seq<DOMNode?>) returns (r: Result<seq<DOMNode?>>)
    requires i < 7 && |tables| == i && (i >= 1 ==> entry.nestedNamespaces.Some?)
    requires forall j :: 0 <= j < i && tables[j] != null ==> allocated(tables[j].Repr)
    requires forall j :: 0 <= j < i ==> TableOf(tables[j], SummarySets(entry)[j])
    ensures r.Fail? <==> TableFails(SummarySets(entry)[i], TwoColumn[i])
    ensures r.Ok? ==> |r.value| == i + 1
    ensures r.Ok? ==> forall j :: 0 <= j <= i && r.value[j] != null ==> allocated(r.value[j].Repr)
    ensures r.Ok? ==> forall j :: 0 <= j <= i ==> TableOf(r.value[j], SummarySets(entry)[j])
  {
    SummarySetsAllocated(entry);
    var table := BuildSummaryTableAt(entry, i);
    if table.Fail? {
      return Fail(table.failure);
    }
    var next := tables + [table.value];
    forall j | 0 <= j <= i
      ensures TableOf(next[j], SummarySets(entry)[j])
    {
      if j < i {
        assert next[j] == tables[j];
      } else {
        assert next[j] == table.value;
      }
    }
    return Ok(next);
  }
}
