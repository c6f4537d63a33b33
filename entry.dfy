/**
 * The documentation entries the parser builds: parameters, return values
 * and entries. An entry's optional parts (default, type, constructor,
 * parameters, return value, methods, properties, nested namespaces) are
 * "capabilities": absent unless the variant's builder included them, and
 * every setter or adder on an absent capability does nothing.
 *
 * The name-ordered TreeSets of members become maps keyed by name: a member
 * whose name is already present is not added, so the first one wins.
 */
module Entries {
  import opened Common
  import opened Annotations
  import opened LinkScan
  import Lines
  import Strings

  /** A parameter of a constructor or method. */
  class Parameter {
    const name: string
    var argType: string
    var description: string

    /** new Parameter(name, argType, description): stored verbatim. */
    constructor (name: string, argType: string, description: string)
      ensures this.name == name && this.argType == argType && this.description == description
    {
      this.name := name;
      this.argType := argType;
      this.description := description;
    }

    /** getDescription(): the stored text with its links expanded. */
    function Description(): (r: Result<string>)
      reads this
      ensures '<' !in description ==> r == Ok(description)
    {
      if '<' in description then ExpandLinks(description, Lines.Reserved)
      else
        NoOpenUnchanged(description, Lines.Reserved);
        ExpandLinks(description, Lines.Reserved)
    }

    /** appendToDescription(text): a space and the text, even after an empty description. */
    method AppendToDescription(text: string)
      modifies this`description
      ensures description == old(description) + " " + text
    {
      description := description + " " + text;
    }

    /** setArgType(argType): only the type changes. */
    method SetArgType(argType: string)
      modifies this`argType
      ensures this.argType == argType
    {
      this.argType := argType;
    }
  }

  /** The return value of a method or property. */
  class ReturnValue {
    var typeName: string
    var description: string

    /** new ReturnValue(): both parts empty. */
    constructor Empty()
      ensures typeName == "" && description == ""
      ensures IsEmpty() && Type() == "undefined"
    {
      typeName := "";
      description := "";
    }

    /** new ReturnValue(type, description) */
    constructor (typeName: string, description: string)
      ensures this.typeName == typeName && this.description == description
    {
      this.typeName := typeName;
      this.description := description;
    }

    /** appendToDescription(text): a space and the text. */
    method AppendToDescription(text: string)
      modifies this`description
      ensures description == old(description) + " " + text
    {
      description := description + " " + text;
    }

    /** setType(text): the type is replaced. */
    method SetType(text: string)
      modifies this`typeName
      ensures typeName == text
    {
      typeName := text;
    }

    /** getType(): "undefined" stands in for an empty type. */
    function Type(): (r: string)
      reads this
      ensures |r| > 0
      ensures |typeName| > 0 ==> r == typeName
      ensures |typeName| == 0 ==> r == "undefined"
    {
      if |typeName| == 0 then "undefined" else typeName
    }

    /** isEmpty(): neither a type nor a description. */
    function IsEmpty(): (r: bool)
      reads this
      ensures r <==> typeName == "" && description == ""
      ensures r ==> Type() == "undefined"
    {
      |description| == 0 && |typeName| == 0
    }
  }

  /** An entry's description after appendToDescription(text). */
  function Appended(description: string, text: string): string {
    if description == "" then "<p>" + text else description + " " + text
  }

  /** The Java subclass an entry was built as. */
  datatype Variant = ClassVariant | NamespaceVariant | MethodVariant | PropertyVariant | ConstructorVariant

  /** Members keyed by their own names, as a name-ordered set holds them. */
  predicate ByName(m: map<string, Entry>) {
    forall n :: n in m ==> m[n].name == n
  }

  /** TreeSet.add by name: a member whose name is present is not added. */
  function AddByName(m: map<string, Entry>, e: Entry): (r: map<string, Entry>)
    ensures e.name in r && r.Keys == m.Keys + {e.name}
    ensures e.name in m ==> r == m
    ensures e.name !in m ==> r[e.name] == e && forall n :: n in m ==> r[n] == m[n]
    ensures ByName(m) ==> ByName(r)
  {
    if e.name in m then m else m[e.name := e]
  }

  /** An entry of the documentation. */
  class Entry {
    const variant: Variant
    const annotation: Kind
    const name: string
    var description: string
    var default: Option<string>
    var typeName: Option<string>
    const constructorEntry: Entry?
    var parameters: Option<seq<Parameter>>
    var returnValue: ReturnValue?
    var methods: Option<map<string, Entry>>
    var properties: Option<map<string, Entry>>
    var nestedNamespaces: Option<map<string, Entry>>

    /** The member sets are keyed by the members' names; the constructor entry is one, of the same name. */
    predicate Valid()
      reads this
    {
      (constructorEntry != null ==> constructorEntry.annotation == CONSTRUCTOR && constructorEntry.name == name) &&
      (methods.Some? ==> ByName(methods.value)) &&
      (properties.Some? ==> ByName(properties.value)) &&
      (nestedNamespaces.Some? ==> ByName(nestedNamespaces.value))
    }

    /** new ConstructorEntry(name): a parameter list and nothing else. */
    constructor ConstructorEntry(name: string)
      ensures Valid() && variant == ConstructorVariant && annotation == CONSTRUCTOR && this.name == name
      ensures description == "" && default.None? && typeName.None? && constructorEntry == null
      ensures parameters == Some([]) && returnValue == null
      ensures methods.None? && properties.None? && nestedNamespaces.None?
    {
      variant := ConstructorVariant;
      annotation := CONSTRUCTOR;
      this.name := name;
      description := "";
      default := None;
      typeName := None;
      constructorEntry := null;
      parameters := Some([]);
      returnValue := null;
      methods := None;
      properties := None;
      nestedNamespaces := None;
    }

    /**
     * new ClassEntry(name): empty member sets and a constructor entry of the
     * same name, created at once, but no type, default, parameters or return
     * value.
     */
    constructor ClassEntry(name: string)
      ensures Valid() && variant == ClassVariant && annotation == CLASS && this.name == name
      ensures description == "" && default.None? && typeName.None? && parameters.None? && returnValue == null
      ensures methods == Some(map[]) && properties == Some(map[]) && nestedNamespaces == Some(map[])
      ensures constructorEntry != null && fresh(constructorEntry)
      ensures constructorEntry.annotation == CONSTRUCTOR && constructorEntry.name == name
      ensures constructorEntry.parameters == Some([]) && constructorEntry.description == ""
    {
      variant := ClassVariant;
      annotation := CLASS;
      this.name := name;
      description := "";
      default := None;
      typeName := None;
      constructorEntry := new Entry.ConstructorEntry(name);
      parameters := None;
      returnValue := null;
      methods := Some(map[]);
      properties := Some(map[]);
      nestedNamespaces := Some(map[]);
    }

    /** new NamespaceEntry(name): empty member sets, no constructor. */
    constructor NamespaceEntry(name: string)
      ensures Valid() && variant == NamespaceVariant && annotation == NAMESPACE && this.name == name
      ensures description == "" && default.None? && typeName.None? && parameters.None? && returnValue == null
      ensures methods == Some(map[]) && properties == Some(map[]) && nestedNamespaces == Some(map[])
      ensures constructorEntry == null && Type() == Some("")
    {
      variant := NamespaceVariant;
      annotation := NAMESPACE;
      this.name := name;
      description := "";
      default := None;
      typeName := None;
      constructorEntry := null;
      parameters := None;
      returnValue := null;
      methods := Some(map[]);
      properties := Some(map[]);
      nestedNamespaces := Some(map[]);
    }

    /** new MethodEntry(kind, name): an empty parameter list and an empty return value. */
    constructor MethodEntry(kind: Kind, name: string)
      ensures Valid() && variant == MethodVariant && annotation == kind && this.name == name
      ensures description == "" && default.None? && typeName.None? && constructorEntry == null
      ensures parameters == Some([]) && returnValue != null && fresh(returnValue)
      ensures returnValue.IsEmpty() && returnValue.Type() == "undefined"
      ensures methods.None? && properties.None? && nestedNamespaces.None?
    {
      variant := MethodVariant;
      annotation := kind;
      this.name := name;
      description := "";
      default := None;
      typeName := None;
      constructorEntry := null;
      parameters := Some([]);
      returnValue := new ReturnValue.Empty();
      methods := None;
      properties := None;
      nestedNamespaces := None;
    }

    /** new PropertyEntry(kind, name): empty default and type, parameters and return value. */
    constructor PropertyEntry(kind: Kind, name: string)
      ensures Valid() && variant == PropertyVariant && annotation == kind && this.name == name
      ensures description == "" && default == Some("") && typeName == Some("") && constructorEntry == null
      ensures parameters == Some([]) && returnValue != null && fresh(returnValue) && returnValue.IsEmpty()
      ensures methods.None? && properties.None? && nestedNamespaces.None?
    {
      variant := PropertyVariant;
      annotation := kind;
      this.name := name;
      description := "";
      default := Some("");
      typeName := Some("");
      constructorEntry := null;
      parameters := Some([]);
      returnValue := new ReturnValue.Empty();
      methods := None;
      properties := None;
      nestedNamespaces := None;
    }

    /** appendToDescription(text): the first text opens a paragraph, later ones follow a space. */
    method AppendToDescription(text: string)
      modifies this`description
      ensures old(description) == "" ==> description == "<p>" + text
      ensures old(description) != "" ==> description == old(description) + " " + text
      ensures description == Appended(old(description), text)
    {
      if description == "" {
        description := "<p>" + text;
      } else {
        description := description + " " + text;
      }
    }

    /** setDefault(str): only an entry that has a default takes one. */
    method SetDefault(str: string)
      modifies this`default
      ensures old(default).Some? ==> default == Some(str)
      ensures old(default).None? ==> default == old(default)
    {
      if default.Some? {
        default := Some(str);
      }
    }

    /** setType(str): only an entry that has a type takes one. */
    method SetType(str: string)
      modifies this`typeName
      ensures old(typeName).Some? ==> typeName == Some(str)
      ensures old(typeName).None? ==> typeName == old(typeName)
    {
      if typeName.Some? {
        typeName := Some(str);
      }
    }

    /** setReturnValue(rv): replaces the return value only where there is one. */
    method SetReturnValue(rv: ReturnValue)
      modifies this`returnValue
      ensures old(returnValue) != null ==> returnValue == rv
      ensures old(returnValue) == null ==> returnValue == null
    {
      if returnValue != null {
        returnValue := rv;
      }
    }

    /** setReturnValue(type, description): sets the type and appends to the present return value. */
    method SetReturnValueParts(typeName: string, description: string)
      modifies returnValue
      ensures returnValue != null ==>
                returnValue.typeName == typeName && returnValue.description == old(returnValue.description) + " " + description
    {
      if returnValue != null {
        returnValue.SetType(typeName);
        returnValue.AppendToDescription(description);
      }
    }

    /** addParameter(p): appended at the end, duplicates allowed. */
    method AddParameter(p: Parameter)
      modifies this`parameters
      ensures old(parameters).Some? ==> parameters == Some(old(parameters).value + [p])
      ensures old(parameters).None? ==> parameters.None?
    {
      if parameters.Some? {
        parameters := Some(parameters.value + [p]);
      }
    }

    /** addProperty(e): by name, the first one wins. */
    method AddProperty(e: Entry)
      modifies this`properties
      ensures old(properties).Some? ==> properties == Some(AddByName(old(properties).value, e))
      ensures old(properties).None? ==> properties.None?
    {
      if properties.Some? {
        properties := Some(AddByName(properties.value, e));
      }
    }

    /** addNestedNamespace(e): by name, the first one wins. */
    method AddNestedNamespace(e: Entry)
      modifies this`nestedNamespaces
      ensures old(nestedNamespaces).Some? ==> nestedNamespaces == Some(AddByName(old(nestedNamespaces).value, e))
      ensures old(nestedNamespaces).None? ==> nestedNamespaces.None?
    {
      if nestedNamespaces.Some? {
        nestedNamespaces := Some(AddByName(nestedNamespaces.value, e));
      }
    }

    /** addMethod(e): by name, the first one wins. */
    method AddMethod(e: Entry)
      modifies this`methods
      ensures old(methods).Some? ==> methods == Some(AddByName(old(methods).value, e))
      ensures old(methods).None? ==> methods.None?
    {
      if methods.Some? {
        methods := Some(AddByName(methods.value, e));
      }
    }

    /** getDescription(): the stored text with its links expanded. */
    function Description(): (r: Result<string>)
      reads this
      ensures '<' !in description ==> r == Ok(description)
    {
      if '<' in description then ExpandLinks(description, Lines.Reserved)
      else
        NoOpenUnchanged(description, Lines.Reserved);
        ExpandLinks(description, Lines.Reserved)
    }

    /** getType(): a namespace always answers "", other entries their type, None standing for null. */
    function Type(): (r: Option<string>)
      reads this
      ensures variant == NamespaceVariant ==> r == Some("")
      ensures variant != NamespaceVariant ==> r == typeName
    {
      if variant == NamespaceVariant then Some("") else typeName
    }

    /** compareTo(o): entries are ordered by their names, so equal names compare as equal entries. */
    function CompareTo(o: Entry): (r: int)
      ensures r == 0 <==> name == o.name
      ensures r == -Strings.CompareTo(o.name, name)
    {
      Strings.CompareAntisymmetric(name, o.name);
      Strings.CompareTo(name, o.name)
    }

    /** getMethod(n): the member of the method set whose name is n, or null. */
    method GetMethod(n: string) returns (r: Entry?)
      ensures r != null ==> methods.Some? && r in methods.value.Values && r.name == n
      ensures r == null ==> methods.None? || forall e :: e in methods.value.Values ==> e.name != n
    {
      if methods.None? {
        return null;
      }
      var m := methods.value;
      var unseen := m.Keys;
      while unseen != {}
        invariant unseen <= m.Keys
        invariant forall k :: k in m && k !in unseen ==> m[k].name != n
        decreases |unseen|
      {
        var k :| k in unseen;
        if m[k].name == n {
          return m[k];
        }
        unseen := unseen - {k};
      }
      return null;
    }

    /** getMethods(filters): a fresh copy of the methods whose kind is among the filters. */
    method GetMethods(filters: seq<Kind>) returns (r: map<string, Entry>)
      ensures methods.None? ==> r == map[]
      ensures methods.Some? ==> r == KindFiltered(methods.value, filters)
    {
      r := FilterByKind(methods, filters);
    }

    /** getProperties(filters): a fresh copy of the properties whose kind is among the filters. */
    method GetProperties(filters: seq<Kind>) returns (r: map<string, Entry>)
      ensures properties.None? ==> r == map[]
      ensures properties.Some? ==> r == KindFiltered(properties.value, filters)
    {
      r := FilterByKind(properties, filters);
    }

    /**
     * getMembers(filters): the filtered methods, then the filtered
     * properties whose names are still free, then the constructor when
     * CONSTRUCTOR is a filter; a missing constructor makes TreeSet.add throw.
     */
    method GetMembers(filters: seq<Kind>) returns (r: Result<map<string, Entry>>)
      requires Valid()
      ensures r.Fail? <==> CONSTRUCTOR in filters && constructorEntry == null
      ensures r.Fail? ==> r == Fail(NullDereference)
      ensures r.Ok? ==> forall n :: n in r.value ==> r.value[n].annotation in filters
      ensures r.Ok? && methods.Some? ==>
                forall n :: n in methods.value && methods.value[n].annotation in filters ==>
                  n in r.value && r.value[n] == methods.value[n]
      ensures r.Ok? && properties.Some? ==>
                forall n :: n in properties.value && properties.value[n].annotation in filters ==> n in r.value
      ensures r.Ok? && CONSTRUCTOR in filters ==> constructorEntry.name in r.value
      ensures r.Ok? ==> forall n :: n in r.value ==>
                (methods.Some? && n in methods.value && r.value[n] == methods.value[n]) ||
                (properties.Some? && n in properties.value && r.value[n] == properties.value[n]) ||
                r.value[n] == constructorEntry
    {
      var ms := GetMethods(filters);
      var ps := GetProperties(filters);
      var members := ps + ms;
      if CONSTRUCTOR in filters {
        if constructorEntry == null {
          return Fail(NullDereference);
        }
        members := AddByName(members, constructorEntry);
      }
      return Ok(members);
    }
  }

  /** The members of m whose kind is among the filters. */
  function KindFiltered(m: map<string, Entry>, filters: seq<Kind>): (r: map<string, Entry>)
    ensures r.Keys <= m.Keys
    ensures forall n :: n in m ==> (n in r <==> m[n].annotation in filters)
    ensures forall n :: n in r ==> r[n] == m[n]
  {
    map n | n in m && m[n].annotation in filters :: m[n]
  }

  /** The inner loop of the filter: does the entry's kind equal one of the filters? */
  method MatchesAny(e: Entry, filters: seq<Kind>) returns (keep: bool)
    ensures keep <==> e.annotation in filters
  {
    keep := false;
    for i := 0 to |filters|
      invariant keep <==> e.annotation in filters[..i]
    {
      assert filters[..i + 1] == filters[..i] + [filters[i]];
      if e.annotation == filters[i] {
        keep := true;
      }
    }
    assert filters[..|filters|] == filters;
  }

  /**
   * getFilteredSet(set, filters): copies the set and removes, one at a time,
   * the entries whose kind matches no filter; a null set gives an empty one.
   */
  method FilterByKind(entrySet: Option<map<string, Entry>>, filters: seq<Kind>) returns (r: map<string, Entry>)
    ensures entrySet.None? ==> r == map[]
    ensures entrySet.Some? ==> r == KindFiltered(entrySet.value, filters)
  {
    if entrySet.None? {
      return map[];
    }
    var all := entrySet.value;
    r := all;
    var unseen := all.Keys;
    while unseen != {}
      invariant unseen <= r.Keys <= all.Keys
      invariant forall n :: n in r ==> r[n] == all[n]
      invariant forall n :: n in all && n !in unseen ==> (n in r <==> all[n].annotation in filters)
      decreases |unseen|
    {
      var n :| n in unseen;
      var keep := MatchesAny(r[n], filters);
      if !keep {
        r := r - {n};
      }
      unseen := unseen - {n};
    }
  }
}
