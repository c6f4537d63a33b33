/**
 * The `{{expression}}` placeholders of the layout files and the
 * case-insensitive lookup of a placeholder's name.
 */
module Expressions {
  import opened Common
  import opened Strings

  datatype Expression = CONTENT | CSS_IMPORT | FOOTER | JS_IMPORT | SIDEBAR | TITLE

  /** name(): the constant's identifier. */
  function Name(e: Expression): string {
    match e
    case CONTENT => "CONTENT"
    case CSS_IMPORT => "CSS_IMPORT"
    case FOOTER => "FOOTER"
    case JS_IMPORT => "JS_IMPORT"
    case SIDEBAR => "SIDEBAR"
    case TITLE => "TITLE"
  }

  /** values(): every constant, in declaration order. */
  const Values: seq<Expression> := [CONTENT, CSS_IMPORT, FOOTER, JS_IMPORT, SIDEBAR, TITLE]

  /** The first of es whose name equals value ignoring case, as the for loop with early return finds it. */
  function FirstMatch(es: seq<Expression>, value: string): (r: Option<Expression>)
    ensures r.Some? ==> r.value in es && EqualsIgnoreCase(Name(r.value), value)
    ensures r.None? ==> forall i :: 0 <= i < |es| ==> !EqualsIgnoreCase(Name(es[i]), value)
  {
    if es == [] then None
    else if EqualsIgnoreCase(Name(es[0]), value) then Some(es[0])
    else FirstMatch(es[1..], value)
  }

  /** lookup(value): the constant whose name equals value ignoring case, else null. */
  function Lookup(value: string): (r: Option<Expression>)
    ensures r.Some? ==> EqualsIgnoreCase(Name(r.value), value)
    ensures r.None? ==> forall e :: !EqualsIgnoreCase(Name(e), value)
  {
    var r := FirstMatch(Values, value);
    assert r.None? ==> forall e :: !EqualsIgnoreCase(Name(e), value) by {
      forall e
        ensures r.None? ==> !EqualsIgnoreCase(Name(e), value)
      {
        var i := IndexIn(e);
      }
    }
    r
  }

  /** The position of e among the values. */
  function IndexIn(e: Expression): (i: nat)
    ensures i < |Values| && Values[i] == e
  {
    match e
    case CONTENT => 0
    case CSS_IMPORT => 1
    case FOOTER => 2
    case JS_IMPORT => 3
    case SIDEBAR => 4
    case TITLE => 5
  }

  /** Two constants have names equal ignoring case exactly when they are the same constant. */
  lemma NamesDistinctIgnoringCase(e: Expression, f: Expression)
    ensures EqualsIgnoreCase(Name(e), Name(f)) <==> e == f
  {
    UpperOfName(e);
    UpperOfName(f);
  }

  /** Every constant is found under its own name and under its name in lower case. */
  lemma LookupOwnName(e: Expression)
    ensures Lookup(Name(e)) == Some(e)
    ensures Lookup(Lower(Name(e))) == Some(e)
  {
    UpperOfName(e);
    LookupByUpper(Name(e), e);
    UpperOfLowerName(e);
    LookupByUpper(Lower(Name(e)), e);
  }

  /** Upper case undoes lower case on every constant's name. */
  lemma UpperOfLowerName(e: Expression)
    ensures Upper(Lower(Name(e))) == Name(e)
  {
    var n := Name(e);
    assert forall i :: 0 <= i < |n| ==> !('a' <= n[i] <= 'z') by {
      match e
      case CONTENT =>
      case CSS_IMPORT =>
      case FOOTER =>
      case JS_IMPORT =>
      case SIDEBAR =>
      case TITLE =>
    }
    UpperOfLower(n);
  }

  /** A value whose upper case is a constant's name finds that constant. */
  lemma LookupByUpper(value: string, e: Expression)
    requires Upper(value) == Name(e)
    ensures Lookup(value) == Some(e)
  {
    UpperOfName(e);
    var r := Lookup(value);
    assert EqualsIgnoreCase(Name(e), value);
    NamesDistinctIgnoringCase(r.value, e);
  }

  /** The names are already in upper case. */
  lemma UpperOfName(e: Expression)
    ensures Upper(Name(e)) == Name(e)
  {
  }

  /** The separator must be the underscore of the constant's name. */
  lemma LookupSeparator()
    ensures Lookup("css_import") == Some(CSS_IMPORT)
    ensures Lookup("css-import") == None
  {
    LookupOwnName(CSS_IMPORT);
    assert Lower("CSS_IMPORT") == "css_import";
    forall e
      ensures !EqualsIgnoreCase(Name(e), "css-import")
    {
      UpperOfName(e);
      assert Upper("css-import")[3] == '-';
      match e
      case CONTENT =>
      case CSS_IMPORT =>
      case FOOTER =>
      case JS_IMPORT =>
      case SIDEBAR =>
      case TITLE =>
    }
  }
}
