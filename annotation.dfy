/**
 * The closed catalogue of annotation kinds, their short-hand aliases, the
 * case-insensitive resolution of an annotation token, and the parse-wide
 * cursors that the Java enum keeps in static fields and in one mutable
 * `currentName` per constant.
 */
module Annotations {
  import opened Common
  import opened Strings

  datatype Kind =
    // entry types
    | CLASS | CONSTRUCTOR | EVENT | NAMESPACE
    | INSTANCEMETHOD | INSTANCEPROPERTY | STATICMETHOD | STATICPROPERTY
    // other
    | AUTHOR | DEFAULT | EXAMPLE | PARAM | RETURN | VERSION
    | NONE

  /** name(): the constant's identifier. */
  function Name(k: Kind): string {
    match k
    case CLASS => "CLASS"
    case CONSTRUCTOR => "CONSTRUCTOR"
    case EVENT => "EVENT"
    case NAMESPACE => "NAMESPACE"
    case INSTANCEMETHOD => "INSTANCEMETHOD"
    case INSTANCEPROPERTY => "INSTANCEPROPERTY"
    case STATICMETHOD => "STATICMETHOD"
    case STATICPROPERTY => "STATICPROPERTY"
    case AUTHOR => "AUTHOR"
    case DEFAULT => "DEFAULT"
    case EXAMPLE => "EXAMPLE"
    case PARAM => "PARAM"
    case RETURN => "RETURN"
    case VERSION => "VERSION"
    case NONE => "NONE"
  }

  /**
   * Annotation.valueOf(s): the constant named exactly s; None stands for the
   * IllegalArgumentException that valueOf throws otherwise.
   */
  function ValueOf(s: string): (r: Option<Kind>)
    ensures r.Some? ==> Name(r.value) == s
    ensures r.None? ==> forall k :: Name(k) != s
  {
    if s == "CLASS" then Some(CLASS)
    else if s == "CONSTRUCTOR" then Some(CONSTRUCTOR)
    else if s == "EVENT" then Some(EVENT)
    else if s == "NAMESPACE" then Some(NAMESPACE)
    else if s == "INSTANCEMETHOD" then Some(INSTANCEMETHOD)
    else if s == "INSTANCEPROPERTY" then Some(INSTANCEPROPERTY)
    else if s == "STATICMETHOD" then Some(STATICMETHOD)
    else if s == "STATICPROPERTY" then Some(STATICPROPERTY)
    else if s == "AUTHOR" then Some(AUTHOR)
    else if s == "DEFAULT" then Some(DEFAULT)
    else if s == "EXAMPLE" then Some(EXAMPLE)
    else if s == "PARAM" then Some(PARAM)
    else if s == "RETURN" then Some(RETURN)
    else if s == "VERSION" then Some(VERSION)
    else if s == "NONE" then Some(NONE)
    else None
  }

  /** valueOf(name()) gives the constant back. */
  lemma ValueOfName(k: Kind)
    ensures ValueOf(Name(k)) == Some(k)
  {
  }

  /**
   * The lower-case spelling of a constant's name, as annotations write it,
   * resolves to that constant in every lookup setCurrent* makes.
   */
  lemma LowerNameResolves(k: Kind)
    ensures ValueOf(Upper(Lower(Name(k)))) == Some(k)
    ensures Resolve(Lower(Name(k))) == Some(k)
  {
    UpperOfLowerName(k);
    ValueOfName(k);
  }

  /** Upper case undoes lower case on every constant's name. */
  lemma UpperOfLowerName(k: Kind)
    ensures Upper(Lower(Name(k))) == Name(k)
  {
    var n := Name(k);
    assert forall i :: 0 <= i < |n| ==> !('a' <= n[i] <= 'z') by {
      match k
      case CLASS =>
      case CONSTRUCTOR =>
      case EVENT =>
      case NAMESPACE =>
      case INSTANCEMETHOD =>
      case INSTANCEPROPERTY =>
      case STATICMETHOD =>
      case STATICPROPERTY =>
      case AUTHOR =>
      case DEFAULT =>
      case EXAMPLE =>
      case PARAM =>
      case RETURN =>
      case VERSION =>
      case NONE =>
    }
    UpperOfLower(n);
  }

  /** The upper-case spellings of the eight short-hand aliases. */
  const AliasSpellings: set<string> := {"CTOR", "EVT", "EX", "IM", "IP", "RET", "SM", "SP"}

  /** getAlias(s): the constant a short-hand names, in any letter case; None stands for null. */
  function GetAlias(s: string): (r: Option<Kind>)
    ensures r.Some? <==> Upper(s) in AliasSpellings
  {
    var u := Upper(s);
    if u == "CTOR" then Some(CONSTRUCTOR)
    else if u == "EVT" then Some(EVENT)
    else if u == "EX" then Some(EXAMPLE)
    else if u == "IM" then Some(INSTANCEMETHOD)
    else if u == "IP" then Some(INSTANCEPROPERTY)
    else if u == "RET" then Some(RETURN)
    else if u == "SM" then Some(STATICMETHOD)
    else if u == "SP" then Some(STATICPROPERTY)
    else None
  }

  /** isValid(s): the token names a constant, in any letter case, or is an alias. */
  predicate IsValid(s: string) {
    ValueOf(Upper(s)).Some? || GetAlias(s).Some?
  }

  /** setCurrent(s): the value Annotation.current takes, the canonical constant first, then the alias, else null. */
  function Resolve(s: string): Option<Kind> {
    var u := Upper(s);
    if ValueOf(u).Some? then ValueOf(u) else GetAlias(u)
  }

  lemma {:induction false} UpperIdempotent(s: string)
    ensures Upper(Upper(s)) == Upper(s)
  {
    var u := Upper(s);
    assert forall i :: 0 <= i < |u| ==> UpperChar(u[i]) == u[i];
  }

  /** isValid(s) holds exactly when setCurrent(s) leaves `current` non-null. */
  lemma ValidIffResolves(s: string)
    ensures IsValid(s) <==> Resolve(s).Some?
  {
    UpperIdempotent(s);
  }

  /** No alias is also a canonical name, so the canonical-first order never hides an alias. */
  lemma AliasesAreNotNames(s: string)
    ensures GetAlias(s).Some? ==> ValueOf(Upper(s)).None?
  {
    if GetAlias(s).Some? {
      forall k ensures Name(k) != Upper(s) {
        assert Name(k) !in AliasSpellings;
      }
    }
  }

  /** The eight aliases resolve to the constants the short-hands stand for. */
  lemma AliasTargets(s: string)
    ensures GetAlias(s) == Some(CONSTRUCTOR) <==> Upper(s) == "CTOR"
    ensures GetAlias(s) == Some(EVENT) <==> Upper(s) == "EVT"
    ensures GetAlias(s) == Some(EXAMPLE) <==> Upper(s) == "EX"
    ensures GetAlias(s) == Some(INSTANCEMETHOD) <==> Upper(s) == "IM"
    ensures GetAlias(s) == Some(INSTANCEPROPERTY) <==> Upper(s) == "IP"
    ensures GetAlias(s) == Some(RETURN) <==> Upper(s) == "RET"
    ensures GetAlias(s) == Some(STATICMETHOD) <==> Upper(s) == "SM"
    ensures GetAlias(s) == Some(STATICPROPERTY) <==> Upper(s) == "SP"
  {
  }

  /**
   * The parse-wide cursor state the handlers read and move:
   * currentClassOrMethod, currentClassOrNamespace and every constant's
   * currentName. A missing constant in `currentName` is a currentName that
   * is still null. Annotation.current, which only the parse loop reads and
   * sets, is that loop's own state (module Parser).
   */
  class Cursors {
    var currentClassOrMethod: Option<Kind>
    var currentClassOrNamespace: Option<Kind>
    var currentName: map<Kind, string>

    /** Every cursor and every currentName starts null. */
    constructor ()
      ensures currentClassOrMethod == None && currentClassOrNamespace == None
      ensures forall k :: k !in currentName
    {
      currentClassOrMethod := None;
      currentClassOrNamespace := None;
      currentName := map[];
    }

    /** getCurrentName(), None standing for null. */
    function CurrentName(k: Kind): Option<string>
      reads this`currentName
    {
      if k in currentName then Some(currentName[k]) else None
    }

    /** setCurrentClassOrMethod(value): only a canonical name changes the cursor; aliases do not. */
    method SetCurrentClassOrMethod(value: string)
      modifies this`currentClassOrMethod
      ensures ValueOf(Upper(value)).Some? ==> currentClassOrMethod == ValueOf(Upper(value))
      ensures ValueOf(Upper(value)).None? ==> currentClassOrMethod == old(currentClassOrMethod)
    {
      var k := ValueOf(Upper(value));
      if k.Some? {
        currentClassOrMethod := k;
      }
    }

    /** setCurrentClassOrNamespace(value): only a canonical name changes the cursor; aliases do not. */
    method SetCurrentClassOrNamespace(value: string)
      modifies this`currentClassOrNamespace
      ensures ValueOf(Upper(value)).Some? ==> currentClassOrNamespace == ValueOf(Upper(value))
      ensures ValueOf(Upper(value)).None? ==> currentClassOrNamespace == old(currentClassOrNamespace)
    {
      var k := ValueOf(Upper(value));
      if k.Some? {
        currentClassOrNamespace := k;
      }
    }

    /** k.setCurrentName(value) */
    method SetCurrentName(k: Kind, value: string)
      modifies this`currentName
      ensures currentName == old(currentName)[k := value]
      ensures CurrentName(k) == Some(value)
      ensures forall j :: j != k ==> CurrentName(j) == old(CurrentName(j))
    {
      currentName := currentName[k := value];
    }

    /** k.setCurrentName(parent, value): stores the registry key parent.value. */
    method SetQualifiedCurrentName(k: Kind, parent: string, value: string)
      modifies this`currentName
      ensures currentName == old(currentName)[k := GenerateKey(parent, value)]
      ensures CurrentName(k) == Some(GenerateKey(parent, value))
      ensures forall j :: j != k ==> CurrentName(j) == old(CurrentName(j))
    {
      currentName := currentName[k := GenerateKey(parent, value)];
    }
  }
}
