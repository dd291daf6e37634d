/**
 * The in-memory side of an INI file: sections holding named entries, lookup
 * that may fail, lookup that creates what is missing, and typed get/set of
 * entry values for `bool` and `std::string`.
 *
 * Sections and entries are held by value in vectors, so `Entry` and `Section`
 * are datatypes and a `Section` member that changes its entries returns the
 * changed section. The file itself is a class whose `sections` vector the
 * creating operations reassign.
 */
module IniFile {
  import opened Wrappers
  import Algorithm
  import StringUtils

  datatype Entry = Entry(name: string, value: string)

  /** Selects the entry called key. */
  function EntryNamed(key: string): Entry -> bool
  {
    (e: Entry) => e.name == key
  }

  /** The value `setValue` stores for a `bool`. */
  function BoolText(b: bool): string
  {
    if b then "true" else "false"
  }

  /** The bool parse of `getValue`: "0" or "false" in any case, "1" or "true" in any case, otherwise nothing. */
  function ParseBool(v: string): Option<bool>
  {
    if v == "0" || StringUtils.EqualsCi(v, "false") then Some(false)
    else if v == "1" || StringUtils.EqualsCi(v, "true") then Some(true)
    else None
  }

  /** Parsing the stored text of a `bool` gives the `bool` back. */
  lemma ParseBoolRoundTrip(b: bool)
    ensures ParseBool(BoolText(b)) == Some(b)
  {
    StringUtils.EqualsCiIsLowerEquality(BoolText(b), BoolText(b));
  }

  /** Exactly the strings "0", "1" and the case variants of "false" and "true" parse, to the evident value. */
  lemma ParseBoolAccepts(v: string)
    ensures ParseBool(v) == Some(false) <==> v == "0" || StringUtils.LowerAscii(v) == "false"
    ensures ParseBool(v) == Some(true) <==> v == "1" || StringUtils.LowerAscii(v) == "true"
  {
    StringUtils.EqualsCiIsLowerEquality(v, "false");
    StringUtils.EqualsCiIsLowerEquality(v, "true");
    LowerOfLower("false");
    LowerOfLower("true");
  }

  lemma LowerOfLower(w: string)
    requires forall i :: 0 <= i < |w| ==> 'a' <= w[i] <= 'z'
    ensures StringUtils.LowerAscii(w) == w
  {
  }

  datatype Section = Section(name: string, entries: seq<Entry>) {

    /** `tryGetEntry`: the index of the first entry called key, or None; creates nothing. */
    function TryGetEntry(key: string): (r: Option<nat>)
      ensures r.Some? ==> r.value < |entries| && entries[r.value].name == key
      ensures r.Some? ==> forall j :: 0 <= j < r.value ==> entries[j].name != key
      ensures r.None? ==> forall j :: 0 <= j < |entries| ==> entries[j].name != key
    {
      Algorithm.FindIf(entries, EntryNamed(key))
    }

    /** `getEntry`: the first entry called key, appending an empty one when there is none. */
    function GetEntry(key: string): (r: (Section, nat))
      ensures r.0.name == name
      ensures r.0.TryGetEntry(key) == Some(r.1)
      ensures TryGetEntry(key).Some? ==> r.0 == this
      ensures TryGetEntry(key).None? ==> r.0.entries == entries + [Entry(key, "")]
    {
      match TryGetEntry(key)
      case Some(i) => (this, i)
      case None =>
        var s := Section(name, entries + [Entry(key, "")]);
        FirstMatchAfterAppend(entries, Entry(key, ""), key);
        (s, |entries|)
    }

    /** `setValue` for a `bool`: the entry called key (created if missing) holds "true" or "false". */
    function SetValueBool(key: string, value: bool): (r: Section)
      ensures r.name == name
      ensures r.GetValueBool(key, false) == (true, value) && r.GetValueBool(key, true) == (true, value)
      ensures forall k :: k != key ==> r.GetValueString(k, []) == GetValueString(k, [])
    {
      var (s, i) := GetEntry(key);
      var r := Section(s.name, s.entries[i := Entry(key, BoolText(value))]);
      ParseBoolRoundTrip(value);
      assert r.TryGetEntry(key) == Some(i) by {
        assert forall j :: 0 <= j < |r.entries| ==> r.entries[j].name == s.entries[j].name;
      }
      forall k | k != key
        ensures r.GetValueString(k, []) == GetValueString(k, [])
      {
        LookupOtherKey(this, s, r, key, k, i, BoolText(value));
      }
      r
    }

    /** `getValue` into a `std::string`: (true, the entry's value) when the entry exists; (false, dst) otherwise. */
    function GetValueString(key: string, dst: string): (r: (bool, string))
      ensures r.0 <==> TryGetEntry(key).Some?
      ensures r.0 ==> r.1 == entries[TryGetEntry(key).value].value
      ensures !r.0 ==> r.1 == dst
    {
      match TryGetEntry(key)
      case None => (false, dst)
      case Some(i) => (true, entries[i].value)
    }

    /** `getValue` into a `bool`: (true, parsed value) when the entry exists and parses; (false, dst) otherwise. */
    function GetValueBool(key: string, dst: bool): (r: (bool, bool))
      ensures TryGetEntry(key).None? ==> r == (false, dst)
      ensures TryGetEntry(key).Some? ==> r == match ParseBool(entries[TryGetEntry(key).value].value)
                                            case Some(b) => (true, b)
                                            case None => (false, dst)
    {
      match TryGetEntry(key)
      case None => (false, dst)
      case Some(i) =>
        match ParseBool(entries[i].value)
        case Some(b) => (true, b)
        case None => (false, dst)
    }
  }

  /** Appending an entry called key to entries that have none makes it the first entry called key. */
  lemma FirstMatchAfterAppend(entries: seq<Entry>, e: Entry, key: string)
    requires e.name == key
    requires forall j :: 0 <= j < |entries| ==> entries[j].name != key
    ensures Algorithm.FindIf(entries + [e], EntryNamed(key)) == Some(|entries|)
  {
    var c := entries + [e];
    assert EntryNamed(key)(c[|entries|]);
    assert forall j :: 0 <= j < |entries| ==> !EntryNamed(key)(c[j]);
  }

  /** Lookups of other keys are the same before `getEntry`, after it, and after changing the value of key's entry. */
  lemma LookupOtherKey(before: Section, mid: Section, after: Section, key: string, k: string, i: nat, v: string)
    requires (mid, i) == before.GetEntry(key)
    requires i < |mid.entries| && after.entries == mid.entries[i := Entry(key, v)]
    requires k != key
    ensures after.GetValueString(k, []) == before.GetValueString(k, [])
  {
    var n := |before.entries|;
    assert forall j :: 0 <= j < |after.entries| && j != i ==> after.entries[j] == mid.entries[j];
    assert forall j :: 0 <= j < n ==> mid.entries[j] == before.entries[j];
    assert mid.entries[i].name == key;
    match before.TryGetEntry(k)
    case Some(j) =>
      assert after.entries[j] == before.entries[j];
      assert after.TryGetEntry(k) == Some(j);
    case None =>
      assert forall j :: 0 <= j < |after.entries| ==> after.entries[j].name != k;
  }

  /** Selects the section called name. */
  function SectionNamed(name: string): Section -> bool
  {
    (s: Section) => s.name == name
  }

  /** The string lookup of key in the first of secs called section. */
  function ValueIn(secs: seq<Section>, section: string, key: string, dst: string): (bool, string)
  {
    match Algorithm.FindIf(secs, SectionNamed(section))
    case None => (false, dst)
    case Some(i) => secs[i].GetValueString(key, dst)
  }

  /** Sections with the same names in the same order are found at the same place. */
  lemma {:induction false} SameNamesSameSection(a: seq<Section>, b: seq<Section>, name: string)
    requires |a| == |b| && forall j :: 0 <= j < |a| ==> a[j].name == b[j].name
    ensures Algorithm.FindIf(a, SectionNamed(name)) == Algorithm.FindIf(b, SectionNamed(name))
  {
    if |a| > 0 {
      SameNamesSameSection(a[1..], b[1..], name);
    }
  }

  /**
   * Lookups in other sections are the same before `getSection` (which may append the section
   * called section), and after the section it returned is replaced by one of the same name.
   */
  lemma {:induction false} OtherSectionsKept(before: seq<Section>, mid: seq<Section>, i: nat, updated: Section,
                                             section: string, s: string, k: string)
    requires s != section && i < |mid| && mid[i].name == section && updated.name == section
    requires mid == before || mid == before + [Section(section, [])]
    ensures ValueIn(mid[i := updated], s, k, []) == ValueIn(before, s, k, [])
  {
    var after := mid[i := updated];
    SameNamesSameSection(mid, after, s);
    if mid != before {
      var f := SectionNamed(s);
      match Algorithm.FindIf(before, f)
      case Some(j) =>
        assert mid[j] == before[j];
        assert Algorithm.FindIf(mid, f) == Some(j);
      case None =>
        assert forall j :: 0 <= j < |mid| ==> !f(mid[j]);
    }
  }

  /** `IniFile`: the sections of a file, in order. */
  class IniFile {
    var sections: seq<Section>

    constructor()
      ensures sections == []
    {
      sections := [];
    }

    /** `tryGetSection`: the index of the first section called name, or None; creates nothing. */
    function TryGetSection(name: string): (r: Option<nat>)
      reads this
      ensures r.Some? ==> r.value < |sections| && sections[r.value].name == name
      ensures r.Some? ==> forall j :: 0 <= j < r.value ==> sections[j].name != name
      ensures r.None? ==> forall j :: 0 <= j < |sections| ==> sections[j].name != name
    {
      Algorithm.FindIf(sections, SectionNamed(name))
    }

    /** `getSection`: the first section called name, appending an empty one when there is none. */
    method GetSection(name: string) returns (idx: nat)
      modifies this
      ensures idx < |sections| && TryGetSection(name) == Some(idx)
      ensures old(TryGetSection(name)).Some? ==> sections == old(sections)
      ensures old(TryGetSection(name)).None? ==> sections == old(sections) + [Section(name, [])]
    {
      var found := TryGetSection(name);
      if found.Some? {
        idx := found.value;
      } else {
        var s := Section(name, []);
        assert (sections + [s])[|sections|] == s;
        sections := sections + [s];
        idx := |sections| - 1;
        assert forall j :: 0 <= j < idx ==> sections[j].name != name;
      }
    }

    /** `getValue` into a `std::string`: false (dst untouched) when the section or the entry is missing. */
    function GetValueString(section: string, key: string, dst: string): (r: (bool, string))
      reads this
      ensures TryGetSection(section).None? ==> r == (false, dst)
      ensures TryGetSection(section).Some? ==> r == sections[TryGetSection(section).value].GetValueString(key, dst)
    {
      ValueIn(sections, section, key, dst)
    }

    /** `getValue` into a `bool`: false (dst untouched) when the section or the entry is missing or does not parse. */
    function GetValueBool(section: string, key: string, dst: bool): (r: (bool, bool))
      reads this
      ensures TryGetSection(section).None? ==> r == (false, dst)
      ensures TryGetSection(section).Some? ==> r == sections[TryGetSection(section).value].GetValueBool(key, dst)
    {
      match TryGetSection(section)
      case None => (false, dst)
      case Some(i) => sections[i].GetValueBool(key, dst)
    }

    /** `setValue` for a `bool`: afterwards a `bool` `getValue` of the same key returns the value stored. */
    method SetValueBool(section: string, key: string, value: bool)
      modifies this
      ensures TryGetSection(section).Some?
      ensures GetValueBool(section, key, false) == (true, value) && GetValueBool(section, key, true) == (true, value)
      ensures forall k :: k != key ==> GetValueString(section, k, []) == old(GetValueString(section, k, []))
      ensures forall s, k :: s != section ==> GetValueString(s, k, []) == old(GetValueString(s, k, []))
    {
      var i := GetSection(section);
      ghost var mid := sections;
      var updated := sections[i].SetValueBool(key, value);
      sections := sections[i := updated];
      assert TryGetSection(section) == Some(i) by {
        SameNamesSameSection(mid, sections, section);
      }
      forall s, k | s != section
        ensures GetValueString(s, k, []) == old(GetValueString(s, k, []))
      {
        OtherSectionsKept(old(sections), mid, i, updated, section, s, k);
      }
    }
  }
}
