/** The custom versioning registry: each subsystem registers a GUID key with
    a version number, and archives record which version of each key they
    were written with. The set of versions is keyed by GUID, so it is a map
    here. Names are compared as text. */
module CustomVersioning {
  import opened IntTypes
  import opened Wrappers
  import Strings

  datatype Guid = Guid(a: u32, b: u32, c: u32, d: u32)

  /** One registered key: its version, how many registrations hold it and
      a name for messages. */
  datatype CustomVersion = CustomVersion(key: Guid, version: i32, referenceCount: int, friendlyName: string)

  type VersionSet = map<Guid, CustomVersion>

  const NameNone: string := "None"
  const NameName: string := "Name"

  /** A key written to a few archives during testing; it is always known
      and never stored. */
  const UnusedKey: Guid := Guid(0, 0, 0, 0xF99D40C1)
  const UnusedCustomVersion: CustomVersion := CustomVersion(UnusedKey, 0, 1, "Unused custom version")

  /** Every entry is stored under its own key and is held by at least one
      registration. */
  predicate Consistent(vs: VersionSet) {
    forall k :: k in vs ==> vs[k].key == k && vs[k].referenceCount >= 1
  }

  /** A freshly constructed entry starts with one reference. */
  function NewVersion(key: Guid, version: i32, friendlyName: string): (r: CustomVersion)
    ensures r.key == key && r.version == version && r.friendlyName == friendlyName
    ensures r.referenceCount == 1
  {
    CustomVersion(key, version, 1, friendlyName)
  }

  /** The entry for a key: the sentinel for the unused key, whatever the
      set holds; otherwise the stored entry, if any. */
  function VersionOf(vs: VersionSet, key: Guid): (r: Option<CustomVersion>)
    ensures key == UnusedKey ==> r == Some(UnusedCustomVersion)
    ensures key != UnusedKey ==> (r.Some? <==> key in vs)
    ensures key != UnusedKey && key in vs ==> r.value == vs[key]
  {
    if key == UnusedKey then Some(UnusedCustomVersion)
    else if key in vs then Some(vs[key])
    else None
  }

  /** The friendly name of a key's entry, or the name "Name" when there is
      no entry. */
  function FriendlyNameOf(vs: VersionSet, key: Guid): (r: string)
    ensures VersionOf(vs, key).None? ==> r == NameName
    ensures VersionOf(vs, key).Some? ==> r == VersionOf(vs, key).value.friendlyName
  {
    match VersionOf(vs, key)
    case Some(v) => v.friendlyName
    case None => NameName
  }

  /** The set after SetVersion: the unused key is ignored; an existing entry
      takes the new version and name and keeps its reference count; a new
      key gets a fresh entry. */
  function WithVersion(vs: VersionSet, key: Guid, version: i32, friendlyName: string): (r: VersionSet)
    ensures key == UnusedKey ==> r == vs
    ensures key != UnusedKey ==> key in r && r[key].version == version && r[key].friendlyName == friendlyName
    ensures key != UnusedKey ==> r[key].referenceCount == (if key in vs then vs[key].referenceCount else 1)
    ensures r.Keys == vs.Keys + (if key == UnusedKey then {} else {key})
    ensures forall k :: k in vs && k != key ==> r[k] == vs[k]
  {
    if key == UnusedKey then vs
    else if key in vs then vs[key := vs[key].(version := version, friendlyName := friendlyName)]
    else vs[key := NewVersion(key, version, friendlyName)]
  }

  /** The set after a registration: a known key gains a reference, a new
      key is added with one. */
  function WithRegistration(vs: VersionSet, key: Guid, version: i32, friendlyName: string): (r: VersionSet)
    ensures key in r && r[key].referenceCount == (if key in vs then vs[key].referenceCount + 1 else 1)
    ensures key !in vs ==> r[key] == NewVersion(key, version, friendlyName)
    ensures key in vs ==> r[key] == vs[key].(referenceCount := vs[key].referenceCount + 1)
    ensures r.Keys == vs.Keys + {key}
    ensures forall k :: k in vs && k != key ==> r[k] == vs[k]
  {
    if key in vs then vs[key := vs[key].(referenceCount := vs[key].referenceCount + 1)]
    else vs[key := NewVersion(key, version, friendlyName)]
  }

  /** The set after a registration ends: the entry loses a reference and is
      removed once none is left. */
  function WithoutRegistration(vs: VersionSet, key: Guid): (r: VersionSet)
    requires key in vs
    ensures vs[key].referenceCount == 1 ==> r == vs - {key}
    ensures vs[key].referenceCount != 1 ==>
      r.Keys == vs.Keys && r[key] == vs[key].(referenceCount := vs[key].referenceCount - 1)
    ensures forall k :: k in vs && k != key ==> k in r && r[k] == vs[k]
  {
    var count := vs[key].referenceCount - 1;
    if count == 0 then vs - {key} else vs[key := vs[key].(referenceCount := count)]
  }

  /** Setting a version keeps the set consistent. */
  lemma WithVersionConsistent(vs: VersionSet, key: Guid, version: i32, friendlyName: string)
    requires Consistent(vs)
    ensures Consistent(WithVersion(vs, key, version, friendlyName))
  {
  }

  /** After SetVersion the key reads back with the version and name just set,
      unless it is the unused key, whose sentinel always wins; no other key
      changes. */
  lemma SetThenGetVersion(vs: VersionSet, key: Guid, version: i32, friendlyName: string, other: Guid)
    ensures key != UnusedKey ==>
      VersionOf(WithVersion(vs, key, version, friendlyName), key).value.version == version &&
      FriendlyNameOf(WithVersion(vs, key, version, friendlyName), key) == friendlyName
    ensures key == UnusedKey ==>
      VersionOf(WithVersion(vs, key, version, friendlyName), key) == Some(UnusedCustomVersion)
    ensures other != key ==>
      VersionOf(WithVersion(vs, key, version, friendlyName), other) == VersionOf(vs, other)
  {
  }

  /** Registering and then ending that registration restores the set. */
  lemma RegisterThenUnregister(vs: VersionSet, key: Guid, version: i32, friendlyName: string)
    requires Consistent(vs)
    ensures WithoutRegistration(WithRegistration(vs, key, version, friendlyName), key) == vs
  {
    var r := WithoutRegistration(WithRegistration(vs, key, version, friendlyName), key);
    assert r.Keys == vs.Keys;
  }

  /** Registrations keep the set consistent, and so does ending one. */
  lemma RegistrationConsistent(vs: VersionSet, key: Guid, version: i32, friendlyName: string)
    requires Consistent(vs)
    ensures Consistent(WithRegistration(vs, key, version, friendlyName))
    ensures key in vs ==> Consistent(WithoutRegistration(vs, key))
  {
  }

  /** A key written by the engine before custom versions used GUIDs. */
  datatype EnumCustomVersion = EnumCustomVersion(tag: u32, version: i32)

  /** A GUID-keyed version as written before the optimized format. */
  datatype GuidCustomVersion = GuidCustomVersion(key: Guid, version: i32, friendlyName: string)

  /** The two legacy formats, with the entries read from the archive. */
  datatype LegacyArchive = Enums(tags: seq<EnumCustomVersion>) | Guids(versions: seq<GuidCustomVersion>)

  /** An enum tag becomes the GUID of three zeroes and the tag, named
      "EnumTag" and the tag in decimal. */
  function EnumToCustomVersion(e: EnumCustomVersion): (r: CustomVersion)
    ensures r.key == Guid(0, 0, 0, e.tag) && r.version == e.version && r.referenceCount == 1
    ensures |r.friendlyName| > 7 && r.friendlyName[..7] == "EnumTag"
    ensures Strings.AllDigits(r.friendlyName[7..]) && Strings.DigitsValue(r.friendlyName[7..]) == e.tag as int
  {
    var digits := Strings.DecimalText(e.tag as nat);
    Strings.DecimalTextValue(e.tag as nat);
    assert ("EnumTag" + digits)[7..] == digits;
    NewVersion(Guid(0, 0, 0, e.tag), e.version, "EnumTag" + digits)
  }

  function GuidToCustomVersion(g: GuidCustomVersion): (r: CustomVersion)
    ensures r.key == g.key && r.version == g.version && r.friendlyName == g.friendlyName
    ensures r.referenceCount == 1
  {
    NewVersion(g.key, g.version, g.friendlyName)
  }

  /** The entries an archive's legacy contents convert to, in order. */
  function Converted(contents: LegacyArchive): (r: seq<CustomVersion>)
    ensures contents.Enums? ==> |r| == |contents.tags|
    ensures contents.Guids? ==> |r| == |contents.versions|
    ensures forall i :: 0 <= i < |r| ==> r[i].referenceCount == 1
  {
    match contents
    case Enums(tags) => seq(|tags|, i requires 0 <= i < |tags| => EnumToCustomVersion(tags[i]))
    case Guids(versions) => seq(|versions|, i requires 0 <= i < |versions| => GuidToCustomVersion(versions[i]))
  }

  /** The set that adding the entries one after another builds: a later
      entry replaces an earlier one with the same key. */
  function SetOf(entries: seq<CustomVersion>): (r: VersionSet)
    ensures forall k :: k in r ==> r[k].key == k
    ensures forall i :: 0 <= i < |entries| ==> entries[i].key in r
  {
    if entries == [] then map[]
    else
      var last := entries[|entries| - 1];
      SetOf(entries[..|entries| - 1])[last.key := last]
  }

  /** A key is in the set only when some entry carries it, and then the set
      holds the last entry with that key. */
  lemma {:induction false} SetOfHoldsLast(entries: seq<CustomVersion>, i: nat)
    requires i < |entries|
    requires forall j :: i < j < |entries| ==> entries[j].key != entries[i].key
    ensures SetOf(entries)[entries[i].key] == entries[i]
  {
    if i < |entries| - 1 {
      var prefix := entries[..|entries| - 1];
      assert prefix[i] == entries[i];
      SetOfHoldsLast(prefix, i);
    }
  }

  lemma {:induction false} SetOfKeys(entries: seq<CustomVersion>, k: Guid)
    requires k in SetOf(entries)
    ensures exists i :: 0 <= i < |entries| && entries[i].key == k
  {
    var last := entries[|entries| - 1];
    if k != last.key {
      var prefix := entries[..|entries| - 1];
      SetOfKeys(prefix, k);
      var i :| 0 <= i < |prefix| && prefix[i].key == k;
      assert entries[i].key == k;
    }
  }

  /** Every entry a legacy archive yields has one reference and sits under
      its own key. */
  lemma {:induction false} SetOfConsistent(entries: seq<CustomVersion>)
    requires forall i :: 0 <= i < |entries| ==> entries[i].referenceCount >= 1
    ensures Consistent(SetOf(entries))
  {
    if entries != [] {
      SetOfConsistent(entries[..|entries| - 1]);
    }
  }

  /** The container of custom versions. */
  class CustomVersionContainer {
    var Versions: VersionSet

    constructor()
      ensures Versions == map[]
    {
      Versions := map[];
    }

    function GetVersion(key: Guid): (r: Option<CustomVersion>)
      reads this
      ensures r == VersionOf(Versions, key)
    {
      VersionOf(Versions, key)
    }

    function GetFriendlyName(key: Guid): (r: string)
      reads this
      ensures r == FriendlyNameOf(Versions, key)
    {
      match GetVersion(key)
      case Some(v) => v.friendlyName
      case None => NameName
    }

    method SetVersion(key: Guid, version: i32, friendlyName: string)
      modifies this
      ensures Versions == WithVersion(old(Versions), key, version, friendlyName)
    {
      if key == UnusedKey {
        return;
      }
      if key in Versions {
        Versions := Versions[key := Versions[key].(version := version, friendlyName := friendlyName)];
      } else {
        Versions := Versions[key := NewVersion(key, version, friendlyName)];
      }
    }

    method Empty()
      modifies this
      ensures Versions == map[]
    {
      Versions := map[];
    }

    /** Reading a legacy format replaces the whole set with the converted
        entries; legacy formats are only ever read, never written. */
    method Serialize(isLoading: bool, contents: LegacyArchive)
      requires isLoading
      modifies this
      ensures Versions == SetOf(Converted(contents))
      ensures Consistent(Versions)
    {
      var entries := Converted(contents);
      Versions := map[];
      var i := 0;
      while i < |entries|
        invariant 0 <= i <= |entries|
        invariant Versions == SetOf(entries[..i])
      {
        assert entries[..i + 1][..i] == entries[..i];
        Versions := Versions[entries[i].key := entries[i]];
        i := i + 1;
      }
      assert entries[..i] == entries;
      SetOfConsistent(entries);
    }
  }

  /** The friendly name of an entry: a stored name, or, when the entry was
      read without one, the name the registered set gives its key. Names
      compare ignoring case, so "none" and "NONE" are the empty name too. */
  function EntryFriendlyName(v: CustomVersion, registered: CustomVersionContainer): (r: string)
    reads registered
    ensures !Strings.EqualsIgnoreCase(v.friendlyName, NameNone) ==> r == v.friendlyName
    ensures Strings.EqualsIgnoreCase(v.friendlyName, NameNone) ==> r == FriendlyNameOf(registered.Versions, v.key)
  {
    if Strings.EqualsIgnoreCase(v.friendlyName, NameNone) then registered.GetFriendlyName(v.key) else v.friendlyName
  }

  /** An entry stored as "NONE" is read as the empty name and takes the
      registered name, just as one stored as "None" does. */
  lemma UpperCaseNoneTakesRegisteredName(v: CustomVersion, registered: CustomVersionContainer)
    requires v.friendlyName == "NONE"
    ensures EntryFriendlyName(v, registered) == FriendlyNameOf(registered.Versions, v.key)
  {
    assert Strings.ToLower("NONE") == "none";
    assert Strings.ToLower(NameNone) == "none";
  }

  /** A registration object: constructing one registers its key with the
      registered set, and ending it gives the reference back. */
  class CustomVersionRegistration {
    var Key: Guid

    constructor(registered: CustomVersionContainer, key: Guid, version: i32, friendlyName: string)
      modifies registered
      ensures Key == key
      ensures registered.Versions == WithRegistration(old(registered.Versions), key, version, friendlyName)
    {
      if key in registered.Versions {
        var existing := registered.Versions[key];
        registered.Versions := registered.Versions[key := existing.(referenceCount := existing.referenceCount + 1)];
      } else {
        registered.Versions := registered.Versions[key := NewVersion(key, version, friendlyName)];
      }
      Key := key;
    }

    /** The destructor: the key must still be registered. */
    method Unregister(registered: CustomVersionContainer)
      requires Key in registered.Versions
      modifies registered
      ensures registered.Versions == WithoutRegistration(old(registered.Versions), Key)
    {
      var found := registered.Versions[Key];
      var count := found.referenceCount - 1;
      if count == 0 {
        registered.Versions := registered.Versions - {Key};
      } else {
        registered.Versions := registered.Versions[Key := found.(referenceCount := count)];
      }
    }
  }
}
