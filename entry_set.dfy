/**
 * The registry of entries: a name-ordered set of the top-level entries and
 * a key-to-entry map in which an entry is filed under its own name or under
 * `parent.name`. Documentation is the one registry the whole run shares.
 */
module Registry {
  import opened Common
  import opened Annotations
  import opened Entries

  /** A registry key files e under its own name or under some parent's name. */
  predicate KeyOf(k: string, e: Entry) {
    k == e.name || (|k| > |e.name| && k[|k| - |e.name| - 1..] == "." + e.name)
  }

  /** parent.name is a key of an entry called name. */
  lemma ParentKey(parent: string, e: Entry)
    ensures KeyOf(GenerateKey(parent, e.name), e)
  {
    var k := GenerateKey(parent, e.name);
    assert k[|k| - |e.name| - 1..] == "." + e.name;
  }

  /** The entries a map files and their constructor entries. */
  function Reach(m: map<string, Entry>): set<object> {
    (set e | e in m.Values :: e as object) +
    (set e | e in m.Values && e.constructorEntry != null :: e.constructorEntry as object)
  }

  /** The entry itself and its constructor entry, if it has one. */
  function Own(e: Entry): set<object> {
    if e.constructorEntry == null then {e} else {e, e.constructorEntry}
  }

  /** Filing one more entry adds only that entry and its constructor entry to the reach. */
  lemma ReachUpdate(m: map<string, Entry>, k: string, e: Entry)
    ensures Reach(m[k := e]) <= Reach(m) + Own(e)
  {
    var m' := m[k := e];
    forall v | v in m'.Values && v != e
      ensures v in m.Values
    {
      var k' :| k' in m' && m'[k'] == v;
      assert k' != k && m[k'] == v;
    }
  }

  class EntrySet {
    var entries: map<string, Entry>
    var entriesMap: map<string, Entry>

    /** The set holds entries by name; every key files its entry by name or under a parent. */
    predicate Valid()
      reads this
    {
      ByName(entries) && forall k :: k in entriesMap ==> KeyOf(k, entriesMap[k])
    }

    /** new EntrySet(): both collections empty. */
    constructor ()
      ensures Valid() && entries == map[] && entriesMap == map[]
    {
      entries := map[];
      entriesMap := map[];
    }

    /** add(e): into the set (unless the name is taken) and under its own name in the map. */
    method Add(e: Entry)
      requires Valid()
      modifies this
      ensures Valid()
      ensures entries == AddByName(old(entries), e)
      ensures entriesMap == old(entriesMap)[e.name := e]
    {
      entries := AddByName(entries, e);
      entriesMap := entriesMap[e.name := e];
    }

    /** add(parent, e): only the map changes, under parent.name. */
    method AddUnder(parent: string, e: Entry)
      requires Valid()
      modifies this`entriesMap
      ensures Valid()
      ensures entriesMap == old(entriesMap)[GenerateKey(parent, e.name) := e]
    {
      ParentKey(parent, e);
      entriesMap := entriesMap[GenerateKey(parent, e.name) := e];
    }

    /** get(name): the entry filed under name, or null. */
    function Get(name: string): (r: Entry?)
      reads this
      ensures r != null <==> name in entriesMap
      ensures r != null ==> r == entriesMap[name]
      ensures r != null && Valid() ==> KeyOf(name, r)
    {
      if name in entriesMap then entriesMap[name] else null
    }

    /** get(parent, name): the lookup of the key parent.name. */
    function GetUnder(parent: string, name: string): (r: Entry?)
      reads this
      ensures r != null <==> GenerateKey(parent, name) in entriesMap
      ensures r != null && Valid() ==> KeyOf(GenerateKey(parent, name), r)
    {
      Get(GenerateKey(parent, name))
    }

    /**
     * getEntries(): every entry of the map, collapsed by name into a fresh
     * set; when several keys hold same-named entries, one of them is kept.
     */
    method GetEntries() returns (r: map<string, Entry>)
      ensures ByName(r)
      ensures forall n :: n in r ==> r[n] in entriesMap.Values
      ensures forall k :: k in entriesMap ==> entriesMap[k].name in r
    {
      r := map[];
      var unseen := entriesMap.Keys;
      while unseen != {}
        invariant unseen <= entriesMap.Keys
        invariant ByName(r)
        invariant forall n :: n in r ==> r[n] in entriesMap.Values
        invariant forall k :: k in entriesMap && k !in unseen ==> entriesMap[k].name in r
        decreases |unseen|
      {
        var k :| k in unseen;
        r := AddByName(r, entriesMap[k]);
        unseen := unseen - {k};
      }
    }

    /** getEntries(filters): a fresh copy of the top-level set, kept to the kinds among the filters. */
    method GetEntriesOf(filters: seq<Kind>) returns (r: map<string, Entry>)
      ensures r == KindFiltered(entries, filters)
    {
      r := FilterByKind(Some(entries), filters);
    }
  }

  /** The single registry of a run. */
  class Documentation {
    const filterSet: EntrySet

    constructor ()
      ensures fresh(filterSet) && Valid()
      ensures filterSet.entries == map[] && filterSet.entriesMap == map[]
    {
      filterSet := new EntrySet();
    }

    predicate Valid()
      reads this, filterSet
    {
      filterSet.Valid()
    }

    /** The registered entries and their constructor entries: what a handler may change. */
    function Touchable(): set<object>
      reads this, filterSet
    {
      Reach(filterSet.entriesMap)
    }

    /** The keys filed so far. */
    function Keys(): set<string>
      reads this, filterSet
    {
      filterSet.entriesMap.Keys
    }

    /** addEntry(e): EntrySet.add(e). */
    method AddEntry(e: Entry)
      requires Valid()
      modifies filterSet
      ensures Valid()
      ensures filterSet.entries == AddByName(old(filterSet.entries), e)
      ensures filterSet.entriesMap == old(filterSet.entriesMap)[e.name := e]
      ensures Touchable() <= old(Touchable()) + Own(e)
    {
      ReachUpdate(filterSet.entriesMap, e.name, e);
      filterSet.Add(e);
    }

    /** addEntry(parent, e): EntrySet.add(parent, e). */
    method AddEntryUnder(parent: string, e: Entry)
      requires Valid()
      modifies filterSet
      ensures Valid()
      ensures filterSet.entries == old(filterSet.entries)
      ensures filterSet.entriesMap == old(filterSet.entriesMap)[GenerateKey(parent, e.name) := e]
      ensures Touchable() <= old(Touchable()) + Own(e)
    {
      ReachUpdate(filterSet.entriesMap, GenerateKey(parent, e.name), e);
      filterSet.AddUnder(parent, e);
    }

    /** getEntry(name): EntrySet.get(name). */
    function GetEntry(name: string): (r: Entry?)
      reads this, filterSet
      ensures r != null <==> name in Keys()
      ensures r != null ==> r == filterSet.entriesMap[name]
      ensures r != null ==> r in Touchable()
    {
      var r := filterSet.Get(name);
      assert r != null ==> r in filterSet.entriesMap.Values;
      r
    }

    /** getEntry(parent, name): EntrySet.get(parent, name). */
    function GetEntryUnder(parent: string, name: string): (r: Entry?)
      reads this, filterSet
      ensures r == GetEntry(GenerateKey(parent, name))
      ensures r != null ==> r in Touchable()
    {
      filterSet.GetUnder(parent, name)
    }

    /** getEntries(): EntrySet.getEntries(). */
    method GetEntries() returns (r: map<string, Entry>)
      ensures ByName(r)
      ensures forall n :: n in r ==> r[n] in filterSet.entriesMap.Values
      ensures forall k :: k in filterSet.entriesMap ==> filterSet.entriesMap[k].name in r
    {
      r := filterSet.GetEntries();
    }

    /** getEntries(filters): EntrySet.getEntries(filters). */
    method GetEntriesOf(filters: seq<Kind>) returns (r: map<string, Entry>)
      ensures r == KindFiltered(filterSet.entries, filters)
    {
      r := filterSet.GetEntriesOf(filters);
    }
  }
}
