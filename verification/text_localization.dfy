/** FTextLocalizationManager: the live table that maps a namespace and key to
    a shared display string, the reverse table from a display string back to
    its namespace and key, and the revision counters that tell text caches a
    display string changed; plus the localization entry trackers that hold
    what was loaded from localization resources.

    A display string is a shared, mutable string (`FTextDisplayStringRef`).
    The model names each one by a `DisplayId` and keeps the strings' current
    values in one map, so an assignment through one reference is seen through
    every other. The live table's per-namespace key tables are flattened
    into one table keyed by namespace and key, and so are a tracker's. */
module TextLocalization {
  import opened Wrappers
  import opened IntTypes
  import Strings

  /** What a display string created before initialization holds when it
      has no source string. */
  const AccessedStringBeforeLocLoadedErrorMsg: string :=
    "Can't access string. Loc System hasn't been initialized yet!"

  type DisplayId = nat

  datatype NamespaceKey = NamespaceKey(namespace: string, key: string)

  /** FDisplayStringEntry. */
  datatype DisplayStringEntry =
    DisplayStringEntry(isLocalized: bool, locResId: string, sourceHash: u32, displayString: DisplayId)

  // ---------------------------------------------------------------------
  // Revision counters

  /** `++Revision` on a uint16, repeated while the result is zero: the
      wrapping increment, stepping over zero. */
  function NextRevision(r: u16): (n: u16)
    ensures n != 0 && n != r
    ensures r as int < 0xffff ==> n as int == r as int + 1
  {
    if r == 0xffff then 1 else r + 1
  }

  /** `while (++Revision == 0) {}`. */
  method IncrementSkippingZero(r: u16) returns (n: u16)
    ensures n == NextRevision(r)
  {
    n := ((r as int + 1) % 0x1_0000) as u16;
    while n == 0
      invariant n == 0 ==> r == 0xffff
      invariant n != 0 ==> n == NextRevision(r)
      decreases if n == 0 then 1 else 0
    {
      n := ((n as int + 1) % 0x1_0000) as u16;
    }
  }

  /** The counter after `k` changes. */
  function Advance(r: u16, k: nat): u16 {
    if k == 0 then r else NextRevision(Advance(r, k - 1))
  }

  /** One step of the residue modulo 65535. */
  lemma ModStep(x: nat)
    ensures (x + 1) % 0xffff == if x % 0xffff == 0xfffe then 0 else x % 0xffff + 1
  {
    var q, a := x / 0xffff, x % 0xffff;
    assert x == q * 0xffff + a;
    if a == 0xfffe {
      assert x + 1 == (q + 1) * 0xffff;
    } else {
      assert x + 1 == q * 0xffff + (a + 1);
    }
  }

  /** From a nonzero value the counter runs through 1..65535 in a cycle. */
  lemma {:induction false} AdvanceCycles(r: u16, k: nat)
    requires r != 0
    ensures Advance(r, k) as int == (r as int - 1 + k) % 0xffff + 1
  {
    if k > 0 {
      AdvanceCycles(r, k - 1);
      ModStep(r as int - 1 + k - 1);
    }
  }

  /** A nonzero counter changed fewer than 65535 times differs from its
      starting value, so a cache holding that value sees the change. */
  lemma RevisionDistinguishesChanges(r: u16, k: nat)
    requires r != 0 && 0 < k < 0xffff
    ensures Advance(r, k) != r && Advance(r, k) != 0
  {
    AdvanceCycles(r, k);
  }

  // ---------------------------------------------------------------------
  // Localization entry trackers

  /** FLocalizationEntryTracker::FEntry. */
  datatype LocEntry = LocEntry(locResId: string, sourceHash: u32, localizedString: string)

  /** A tracker's tables, flattened: the entries loaded for each namespace
      and key, in load order. */
  type TrackerTable = map<NamespaceKey, seq<LocEntry>>

  /** A localization resource as its reader decodes it: a sequence of
      namespaces, each a sequence of keys with a source-string hash and a
      localized string. */
  datatype ResourceKey = ResourceKey(key: string, sourceHash: u32, localizedString: string)
  datatype ResourceNamespace = ResourceNamespace(namespace: string, keys: seq<ResourceKey>)

  function EntriesAt(t: TrackerTable, k: NamespaceKey): seq<LocEntry> {
    if k in t then t[k] else []
  }

  /** `KeyTable.FindOrAdd(Key)` followed by `EntryArray.Add(NewEntry)`. */
  function AppendEntry(t: TrackerTable, k: NamespaceKey, e: LocEntry): TrackerTable {
    t[k := EntriesAt(t, k) + [e]]
  }

  /** The inner loop of LoadFromLocalizationResource over one namespace's keys. */
  function LoadKeys(t: TrackerTable, ns: string, keys: seq<ResourceKey>, resId: string): TrackerTable
    decreases |keys|
  {
    if keys == [] then t
    else
      var e := LocEntry(resId, keys[0].sourceHash, keys[0].localizedString);
      LoadKeys(AppendEntry(t, NamespaceKey(ns, keys[0].key), e), ns, keys[1..], resId)
  }

  /** LoadFromLocalizationResource: every namespace of the resource in turn. */
  function LoadResource(t: TrackerTable, res: seq<ResourceNamespace>, resId: string): TrackerTable
    decreases |res|
  {
    if res == [] then t else LoadResource(LoadKeys(t, res[0].namespace, res[0].keys, resId), res[1..], resId)
  }

  /** The entries one namespace of a resource holds for `k`, in file order. */
  function KeyEntries(ns: string, keys: seq<ResourceKey>, resId: string, k: NamespaceKey): seq<LocEntry>
    decreases |keys|
  {
    if keys == [] then []
    else
      var rest := KeyEntries(ns, keys[1..], resId, k);
      if NamespaceKey(ns, keys[0].key) == k then [LocEntry(resId, keys[0].sourceHash, keys[0].localizedString)] + rest
      else rest
  }

  /** The entries a whole resource holds for `k`, in file order. */
  function ResourceEntries(res: seq<ResourceNamespace>, resId: string, k: NamespaceKey): seq<LocEntry>
    decreases |res|
  {
    if res == [] then [] else KeyEntries(res[0].namespace, res[0].keys, resId, k) + ResourceEntries(res[1..], resId, k)
  }

  /** No key is present with an empty entry array. */
  predicate NoEmptyArrays(t: TrackerTable) {
    forall k | k in t :: |t[k]| > 0
  }

  lemma {:induction false} LoadKeysAppends(t: TrackerTable, ns: string, keys: seq<ResourceKey>, resId: string, k: NamespaceKey)
    ensures EntriesAt(LoadKeys(t, ns, keys, resId), k) == EntriesAt(t, k) + KeyEntries(ns, keys, resId, k)
    ensures k in LoadKeys(t, ns, keys, resId) <==> k in t || KeyEntries(ns, keys, resId, k) != []
    decreases |keys|
  {
    if keys != [] {
      var e := LocEntry(resId, keys[0].sourceHash, keys[0].localizedString);
      var t' := AppendEntry(t, NamespaceKey(ns, keys[0].key), e);
      LoadKeysAppends(t', ns, keys[1..], resId, k);
      if NamespaceKey(ns, keys[0].key) == k {
        assert EntriesAt(t', k) == EntriesAt(t, k) + [e];
      } else {
        assert EntriesAt(t', k) == EntriesAt(t, k);
      }
    }
  }

  /** Loading a resource appends, to each key's entry array, exactly the
      entries the resource holds for that key, in file order, and adds a key
      only when the resource holds an entry for it. */
  lemma {:induction false} LoadResourceAppends(t: TrackerTable, res: seq<ResourceNamespace>, resId: string, k: NamespaceKey)
    ensures EntriesAt(LoadResource(t, res, resId), k) == EntriesAt(t, k) + ResourceEntries(res, resId, k)
    ensures k in LoadResource(t, res, resId) <==> k in t || ResourceEntries(res, resId, k) != []
    decreases |res|
  {
    if res != [] {
      var t' := LoadKeys(t, res[0].namespace, res[0].keys, resId);
      LoadKeysAppends(t, res[0].namespace, res[0].keys, resId, k);
      LoadResourceAppends(t', res[1..], resId, k);
    }
  }

  /** A tracker filled only by loading resources has no empty entry array,
      so reading an array's first entry is always defined. */
  lemma LoadKeepsArraysNonEmpty(t: TrackerTable, res: seq<ResourceNamespace>, resId: string)
    requires NoEmptyArrays(t)
    ensures NoEmptyArrays(LoadResource(t, res, resId))
  {
    var r := LoadResource(t, res, resId);
    forall k | k in r
      ensures |r[k]| > 0
    {
      LoadResourceAppends(t, res, resId, k);
    }
  }

  /** Two entries for one key conflict when their hashes or their localized
      strings differ, the strings compared as the engine's strings compare,
      ignoring case. */
  predicate Differ(a: LocEntry, b: LocEntry) {
    a.sourceHash != b.sourceHash || !Strings.EqualsIgnoreCase(a.localizedString, b.localizedString)
  }

  /** Some two entries of the array conflict. */
  predicate HasConflict(entries: seq<LocEntry>) {
    exists i, j | 0 <= i < j < |entries| :: Differ(entries[i], entries[j])
  }

  /** The last two entries of the array conflict. */
  predicate LastPairDiffers(entries: seq<LocEntry>) {
    |entries| >= 2 && Differ(entries[|entries| - 2], entries[|entries| - 1])
  }

  /** DetectAndLogConflicts' flag as written: every pair assigns the flag,
      so it ends holding the verdict on the last pair compared alone. */
  method ConflictFlagAsWritten(entries: seq<LocEntry>) returns (detected: bool)
    ensures detected == LastPairDiffers(entries)
  {
    var n := |entries|;
    detected := false;
    var k := 0;
    while k < n
      invariant 0 <= k <= n
      invariant detected == (0 < k && n >= 2 && Differ(entries[if k - 1 < n - 2 then k - 1 else n - 2], entries[n - 1]))
    {
      var l := k + 1;
      while l < n
        invariant k + 1 <= l <= n || l == n
        invariant l > k + 1 ==> detected == Differ(entries[k], entries[l - 1])
        invariant l <= k + 1 ==> detected == (0 < k && n >= 2 && Differ(entries[if k - 1 < n - 2 then k - 1 else n - 2], entries[n - 1]))
      {
        detected := Differ(entries[k], entries[l]);
        l := l + 1;
      }
      k := k + 1;
    }
  }

  /** The flag accumulated over every pair, as the log message intends. */
  method ConflictFlag(entries: seq<LocEntry>) returns (detected: bool)
    ensures detected == HasConflict(entries)
  {
    var n := |entries|;
    detected := false;
    var k := 0;
    while k < n
      invariant 0 <= k <= n
      invariant detected <==> exists i, j | 0 <= i < k && i < j < n :: Differ(entries[i], entries[j])
    {
      var l := k + 1;
      while l < n
        invariant k + 1 <= l <= n || l == n
        invariant detected <==> (exists i, j | 0 <= i < k && i < j < n :: Differ(entries[i], entries[j])) ||
                                (exists j | k < j < l :: Differ(entries[k], entries[j]))
      {
        detected := detected || Differ(entries[k], entries[l]);
        l := l + 1;
      }
      k := k + 1;
    }
  }

  /** The flag as written never reports a conflict that is not there. */
  lemma LastPairDiffersIsConflict(entries: seq<LocEntry>)
    requires LastPairDiffers(entries)
    ensures HasConflict(entries)
  {
    var n := |entries|;
    assert Differ(entries[n - 2], entries[n - 1]);
  }

  /** Three entries `a, b, b` where `a` conflicts with `b`: the flag as
      written compares `b` with `b` last and reports nothing. */
  lemma AsWrittenMissesConflict()
    ensures var a := LocEntry("r", 1, "A");
      var b := LocEntry("r", 2, "B");
      !LastPairDiffers([a, b, b]) && HasConflict([a, b, b])
  {
    var a := LocEntry("r", 1, "A");
    var b := LocEntry("r", 2, "B");
    assert Differ([a, b, b][0], [a, b, b][1]);
  }

  /** FLocalizationEntryTracker. */
  class LocalizationEntryTracker {
    var Namespaces: TrackerTable

    constructor()
      ensures Namespaces == map[]
    {
      Namespaces := map[];
    }

    /** Reads every namespace and key of the resource and appends an entry,
        tagged with the resource's identifier, to that key's array. */
    method LoadFromLocalizationResource(resource: seq<ResourceNamespace>, resId: string)
      modifies this
      ensures Namespaces == LoadResource(old(Namespaces), resource, resId)
    {
      var table := Namespaces;
      var i := 0;
      while i < |resource|
        invariant 0 <= i <= |resource|
        invariant LoadResource(table, resource[i..], resId) == LoadResource(old(Namespaces), resource, resId)
      {
        var ns := resource[i].namespace;
        var keys := resource[i].keys;
        ghost var start := table;
        var j := 0;
        while j < |keys|
          invariant 0 <= j <= |keys|
          invariant LoadKeys(table, ns, keys[j..], resId) == LoadKeys(start, ns, keys, resId)
        {
          assert keys[j..][1..] == keys[j + 1..];
          table := AppendEntry(table, NamespaceKey(ns, keys[j].key), LocEntry(resId, keys[j].sourceHash, keys[j].localizedString));
          j := j + 1;
        }
        assert keys[j..] == [];
        assert resource[i..][1..] == resource[i + 1..];
        i := i + 1;
      }
      assert resource[i..] == [];
      Namespaces := table;
    }

    /** The keys DetectAndLogConflicts reports, with each key's flag as
        written: a key is reported when its last two entries differ. Every
        key reported really has conflicting entries. */
    method DetectConflicts() returns (conflicting: set<NamespaceKey>)
      ensures conflicting == set k | k in Namespaces && LastPairDiffers(Namespaces[k])
      ensures conflicting <= set k | k in Namespaces && HasConflict(Namespaces[k])
    {
      var table := Namespaces;
      var remaining := table.Keys;
      conflicting := {};
      while remaining != {}
        invariant remaining <= table.Keys
        invariant conflicting == set k | k in table.Keys - remaining && LastPairDiffers(table[k])
        decreases remaining
      {
        var k :| k in remaining;
        var detected := ConflictFlagAsWritten(table[k]);
        if detected {
          conflicting := conflicting + {k};
        }
        remaining := remaining - {k};
      }
      assert table.Keys - remaining == table.Keys;
      forall k | k in conflicting
        ensures HasConflict(table[k])
      {
        LastPairDiffersIsConflict(table[k]);
      }
    }
  }

  // ---------------------------------------------------------------------
  // The manager's tables

  /** Everything FTextLocalizationManager keeps: the live table, the
      reverse table, the display strings' current values (and the next
      unused identifier), the local revisions of display strings, the
      global text revision and whether initialization has ended. */
  datatype LocState = LocState(
    live: map<NamespaceKey, DisplayStringEntry>,
    reverse: map<DisplayId, NamespaceKey>,
    strings: map<DisplayId, string>,
    nextId: DisplayId,
    localRevisions: map<DisplayId, u16>,
    textRevision: u16,
    isInitialized: bool)

  /** The live and the reverse tables describe the same associations, in
      both directions, and every display string they name exists. */
  predicate Consistent(s: LocState) {
    (forall k | k in s.live :: s.live[k].displayString in s.reverse && s.reverse[s.live[k].displayString] == k)
    && (forall id | id in s.reverse :: s.reverse[id] in s.live && s.live[s.reverse[id]].displayString == id)
    && (forall id | id in s.reverse :: id in s.strings)
    && (forall id | id in s.strings :: id < s.nextId)
  }

  /** FindDisplayString: the display string under the namespace and key,
      provided no source string is given or its hash is the entry's. */
  function FindDisplayString(s: LocState, k: NamespaceKey, sourceHash: Option<u32>): (r: Option<DisplayId>)
    ensures r.Some? <==> k in s.live && (sourceHash.None? || s.live[k].sourceHash == sourceHash.value)
  {
    if k in s.live && (sourceHash.None? || s.live[k].sourceHash == sourceHash.value) then Some(s.live[k].displayString)
    else None
  }

  /** GetLocResID: the resource an entry was localized from, when it has one. */
  function GetLocResID(s: LocState, k: NamespaceKey): (r: Option<string>)
    ensures r.Some? <==> k in s.live && s.live[k].locResId != ""
    ensures r.Some? ==> r.value != ""
  {
    if k in s.live && s.live[k].locResId != "" then Some(s.live[k].locResId) else None
  }

  /** FindNamespaceAndKeyFromDisplayString: the reverse lookup. */
  function FindNamespaceAndKey(s: LocState, id: DisplayId): (r: Option<NamespaceKey>)
    ensures r.Some? <==> id in s.reverse
  {
    if id in s.reverse then Some(s.reverse[id]) else None
  }

  /** In consistent tables the two lookups invert each other. */
  lemma LookupsInvert(s: LocState, k: NamespaceKey, id: DisplayId)
    requires Consistent(s)
    ensures FindDisplayString(s, k, None) == Some(id) <==> FindNamespaceAndKey(s, id) == Some(k)
  {
  }

  /** GetLocalRevisionForDisplayString: the stored local revision, zero
      for a display string that has none. */
  function GetLocalRevision(s: LocState, id: DisplayId): (r: u16)
    ensures id !in s.localRevisions ==> r == 0
    ensures id in s.localRevisions ==> r == s.localRevisions[id]
  {
    if id in s.localRevisions then s.localRevisions[id] else 0
  }

  /** DirtyLocalRevisionForDisplayString. */
  function DirtyLocal(s: LocState, id: DisplayId): (r: LocState)
    ensures GetLocalRevision(r, id) != 0 && GetLocalRevision(r, id) != GetLocalRevision(s, id)
    ensures id !in s.localRevisions ==> GetLocalRevision(r, id) == 1
    ensures forall other | other != id :: GetLocalRevision(r, other) == GetLocalRevision(s, other)
    ensures r == s.(localRevisions := r.localRevisions)
  {
    var rev := if id in s.localRevisions then NextRevision(s.localRevisions[id]) else 1;
    s.(localRevisions := s.localRevisions[id := rev])
  }

  /** DirtyTextRevision: the global revision moves on and every local
      revision is forgotten. */
  function DirtyText(s: LocState): (r: LocState)
    ensures r.textRevision != 0 && r.textRevision != s.textRevision
    ensures forall id :: GetLocalRevision(r, id) == 0
    ensures r == s.(textRevision := r.textRevision, localRevisions := map[])
  {
    s.(textRevision := NextRevision(s.textRevision), localRevisions := map[])
  }

  /** AddDisplayString refuses when the namespace and key hold another
      display string, or the display string is registered under another
      namespace and key. */
  predicate AddConflicts(s: LocState, id: DisplayId, k: NamespaceKey) {
    (k in s.live && s.live[k].displayString != id) || (id in s.reverse && s.reverse[id] != k)
  }

  /** AddDisplayString when it succeeds: an unlocalized entry with the
      string's hash, in both tables. */
  function AddedDisplayString(s: LocState, id: DisplayId, k: NamespaceKey, hash: u32): LocState {
    s.(live := s.live[k := DisplayStringEntry(false, "", hash, id)], reverse := s.reverse[id := k])
  }

  /** A successful add keeps the tables consistent, and afterwards each
      lookup finds the other side. */
  lemma AddKeepsConsistent(s: LocState, id: DisplayId, k: NamespaceKey, hash: u32)
    requires Consistent(s) && id in s.strings && !AddConflicts(s, id, k)
    ensures Consistent(AddedDisplayString(s, id, k, hash))
    ensures FindDisplayString(AddedDisplayString(s, id, k, hash), k, None) == Some(id)
    ensures FindNamespaceAndKey(AddedDisplayString(s, id, k, hash), id) == Some(k)
  {
    var r := AddedDisplayString(s, id, k, hash);
    forall id' | id' in r.reverse
      ensures r.reverse[id'] in r.live && r.live[r.reverse[id']].displayString == id'
    {
      if id' != id {
        assert s.reverse[id'] != k;
      }
    }
  }

  /** Adding the same association again is never refused. */
  lemma AddAgainSucceeds(s: LocState, id: DisplayId, k: NamespaceKey, hash: u32)
    requires Consistent(s) && id in s.strings && !AddConflicts(s, id, k)
    ensures !AddConflicts(AddedDisplayString(s, id, k, hash), id, k)
  {
  }

  /** UpdateDisplayString refuses when it would move the display string to
      a namespace and key that is already in use. */
  predicate UpdateConflicts(s: LocState, id: DisplayId, k: NamespaceKey)
    requires id in s.reverse
  {
    s.reverse[id] != k && k in s.live
  }

  /** UpdateDisplayString when it succeeds: the entry moves to the new
      namespace and key (when they differ), the string takes the new value
      and its local revision is dirtied. */
  function UpdatedDisplayString(s: LocState, id: DisplayId, value: string, k: NamespaceKey): LocState
    requires Consistent(s) && id in s.reverse
  {
    var oldKey := s.reverse[id];
    var live := if oldKey != k then (s.live - {oldKey})[k := s.live[oldKey]] else s.live;
    DirtyLocal(s.(live := live, reverse := s.reverse[id := k], strings := s.strings[id := value]), id)
  }

  /** A successful update keeps the tables consistent: the display string
      is found under the new namespace and key, no longer under the old
      ones, keeps its entry's hash and flags, holds the new value and has a
      nonzero local revision. */
  lemma UpdateKeepsConsistent(s: LocState, id: DisplayId, value: string, k: NamespaceKey)
    requires Consistent(s) && id in s.reverse && !UpdateConflicts(s, id, k)
    ensures var r := UpdatedDisplayString(s, id, value, k);
      Consistent(r)
      && FindDisplayString(r, k, None) == Some(id)
      && FindNamespaceAndKey(r, id) == Some(k)
      && (s.reverse[id] != k ==> s.reverse[id] !in r.live)
      && r.live[k] == s.live[s.reverse[id]]
      && r.strings[id] == value
      && GetLocalRevision(r, id) != 0
  {
    var oldKey := s.reverse[id];
    var r := UpdatedDisplayString(s, id, value, k);
    forall k' | k' in r.live
      ensures r.live[k'].displayString in r.reverse && r.reverse[r.live[k'].displayString] == k'
    {
      if k' != k {
        assert k' in s.live && s.live[k'].displayString != id;
      }
    }
    forall id' | id' in r.reverse
      ensures r.reverse[id'] in r.live && r.live[r.reverse[id']].displayString == id'
    {
      if id' != id {
        assert s.reverse[id'] != oldKey;
      }
    }
  }

  /** What GetDisplayString leaves behind and the display string it hands out. */
  datatype Lookup = Lookup(state: LocState, id: DisplayId)

  /** GetDisplayString, with the source string's hash given (zero when
      there is no source string). A blank namespace and key get a fresh,
      unregistered display string. A live entry whose hash differs from a
      nonzero source hash takes the source string and is marked
      unlocalized. An absent entry is created, holding the source string,
      or the error message when there is none and initialization has not
      ended. */
  function DisplayStringFor(s: LocState, k: NamespaceKey, source: Option<string>, sourceHash: u32): (r: Lookup)
    requires source.None? ==> sourceHash == 0
    requires Consistent(s)
  {
    var text := if source.Some? then source.value else "";
    if k.namespace == "" && k.key == "" then
      Lookup(s.(strings := s.strings[s.nextId := text], nextId := s.nextId + 1), s.nextId)
    else if k in s.live then
      var e := s.live[k];
      if sourceHash != 0 && sourceHash != e.sourceHash then
        var s' := s.(live := s.live[k := e.(sourceHash := sourceHash, isLocalized := false)],
                      strings := s.strings[e.displayString := text]);
        Lookup(DirtyLocal(s', e.displayString), e.displayString)
      else Lookup(s, e.displayString)
    else
      var value := if text == "" && !s.isInitialized then AccessedStringBeforeLocLoadedErrorMsg else text;
      var id := s.nextId;
      Lookup(s.(live := s.live[k := DisplayStringEntry(false, "", sourceHash, id)],
                reverse := s.reverse[id := k], strings := s.strings[id := value], nextId := id + 1), id)
  }

  /** GetDisplayString keeps the tables consistent and, unless namespace
      and key are both blank, leaves the display string it returns
      registered under them, holding the source string whenever the source
      hash was nonzero and did not match the stored one. */
  lemma GetKeepsConsistent(s: LocState, k: NamespaceKey, source: Option<string>, sourceHash: u32)
    requires source.None? ==> sourceHash == 0
    requires Consistent(s)
    ensures var r := DisplayStringFor(s, k, source, sourceHash);
      Consistent(r.state) && r.id in r.state.strings
      && (k.namespace != "" || k.key != "" ==> FindDisplayString(r.state, k, None) == Some(r.id))
      && ((k.namespace != "" || k.key != "") && k in s.live && sourceHash != 0 && sourceHash != s.live[k].sourceHash ==>
            r.state.strings[r.id] == source.value && !r.state.live[k].isLocalized && r.state.live[k].sourceHash == sourceHash)
  {
    if k.namespace == "" && k.key == "" {
    } else if k in s.live {
      GetPresentKeepsConsistent(s, k, source, sourceHash);
    } else {
      GetAbsentKeepsConsistent(s, k, source, sourceHash);
    }
  }

  lemma GetPresentKeepsConsistent(s: LocState, k: NamespaceKey, source: Option<string>, sourceHash: u32)
    requires source.None? ==> sourceHash == 0
    requires Consistent(s) && (k.namespace != "" || k.key != "") && k in s.live
    ensures var r := DisplayStringFor(s, k, source, sourceHash);
      Consistent(r.state) && r.id in r.state.strings && FindDisplayString(r.state, k, None) == Some(r.id)
      && (sourceHash != 0 && sourceHash != s.live[k].sourceHash ==>
            r.state.strings[r.id] == source.value && !r.state.live[k].isLocalized && r.state.live[k].sourceHash == sourceHash)
  {
  }

  lemma GetAbsentKeepsConsistent(s: LocState, k: NamespaceKey, source: Option<string>, sourceHash: u32)
    requires source.None? ==> sourceHash == 0
    requires Consistent(s) && (k.namespace != "" || k.key != "") && k !in s.live
    ensures var r := DisplayStringFor(s, k, source, sourceHash);
      Consistent(r.state) && r.id in r.state.strings && FindDisplayString(r.state, k, None) == Some(r.id)
  {
    var r := DisplayStringFor(s, k, source, sourceHash);
    AddFreshKeepsConsistent(s, k, s.nextId, r.state.live[k], r.state.strings[s.nextId]);
  }

  /** Before initialization ends, looking up an unknown namespace and key
      without a source string registers a display string that holds the
      error message. */
  lemma EarlyLookupHoldsErrorMessage(s: LocState, k: NamespaceKey)
    requires Consistent(s) && !s.isInitialized && k !in s.live && (k.namespace != "" || k.key != "")
    ensures var r := DisplayStringFor(s, k, None, 0);
      r.state.strings[r.id] == AccessedStringBeforeLocLoadedErrorMsg && !r.state.live[k].isLocalized
  {
  }

  // UpdateFromLocalizations

  /** The tracker has a non-empty entry array for the key. */
  predicate HasEntry(t: TrackerTable, k: NamespaceKey) {
    k in t && |t[k]| > 0
  }

  /** The index of the first tracker, in priority order, with an entry for
      the key; the number of trackers when none has. */
  function FirstTracker(trackers: seq<TrackerTable>, k: NamespaceKey): (i: nat)
    ensures i <= |trackers|
    ensures forall j | 0 <= j < i :: !HasEntry(trackers[j], k)
    ensures i < |trackers| ==> HasEntry(trackers[i], k)
    decreases |trackers|
  {
    if trackers == [] then 0
    else if HasEntry(trackers[0], k) then 0
    else 1 + FirstTracker(trackers[1..], k)
  }

  /** The entry the update takes for a key: the first entry of the first
      tracker that has one. */
  function SourceEntryForUpdate(trackers: seq<TrackerTable>, k: NamespaceKey): Option<LocEntry> {
    var i := FirstTracker(trackers, k);
    if i < |trackers| then Some(trackers[i][k][0]) else None
  }

  /** The first tracker with an entry for the key wins, whatever the
      trackers after it hold. */
  lemma FirstTrackerWins(trackers: seq<TrackerTable>, k: NamespaceKey, i: nat)
    requires i < |trackers| && HasEntry(trackers[i], k)
    requires forall j | 0 <= j < i :: !HasEntry(trackers[j], k)
    ensures SourceEntryForUpdate(trackers, k) == Some(trackers[i][k][0])
  {
    var f := FirstTracker(trackers, k);
    assert f == i;
  }

  /** Without any tracker entry for the key, nothing is taken. */
  lemma NoTrackerNoSource(trackers: seq<TrackerTable>, k: NamespaceKey)
    requires forall j | 0 <= j < |trackers| :: !HasEntry(trackers[j], k)
    ensures SourceEntryForUpdate(trackers, k) == None
  {
  }

  /** A live entry takes the localization only when the source hashes match. */
  predicate Applies(e: DisplayStringEntry, src: Option<LocEntry>) {
    src.Some? && e.sourceHash == src.value.sourceHash
  }

  function RefreshedEntry(e: DisplayStringEntry, src: Option<LocEntry>): DisplayStringEntry {
    e.(isLocalized := Applies(e, src))
  }

  /** The display string's value after the update: the localized string
      when it applies; otherwise the error message of an early lookup,
      in any letter case, is cleared and any other value kept. */
  function RefreshedText(e: DisplayStringEntry, src: Option<LocEntry>, current: string): string {
    if Applies(e, src) then src.value.localizedString
    else if !e.isLocalized && Strings.EqualsIgnoreCase(current, AccessedStringBeforeLocLoadedErrorMsg) then ""
    else current
  }

  /** The first half of UpdateFromLocalizations: every live entry refreshed
      from the trackers. */
  function RefreshLive(s: LocState, trackers: seq<TrackerTable>): LocState {
    s.(live := map k | k in s.live :: RefreshedEntry(s.live[k], SourceEntryForUpdate(trackers, k)),
       strings := map id | id in s.strings ::
         if id in s.reverse && s.reverse[id] in s.live
         then RefreshedText(s.live[s.reverse[id]], SourceEntryForUpdate(trackers, s.reverse[id]), s.strings[id])
         else s.strings[id])
  }

  /** Refreshing marks a live entry localized exactly when the winning
      tracker entry's hash matches, and then its display string holds the
      localized string; otherwise the display string keeps its value,
      except that the error message of an early lookup becomes empty. */
  lemma RefreshAppliesOnHashMatch(s: LocState, trackers: seq<TrackerTable>, k: NamespaceKey)
    requires Consistent(s) && k in s.live
    ensures var r := RefreshLive(s, trackers);
      var e := s.live[k];
      var src := SourceEntryForUpdate(trackers, k);
      var id := e.displayString;
      r.live[k].isLocalized == (src.Some? && src.value.sourceHash == e.sourceHash)
      && r.live[k].displayString == id && id in r.strings
      && (src.Some? && src.value.sourceHash == e.sourceHash ==> r.strings[id] == src.value.localizedString)
      && (!(src.Some? && src.value.sourceHash == e.sourceHash) ==>
            r.strings[id] == (if !e.isLocalized && Strings.EqualsIgnoreCase(s.strings[id], AccessedStringBeforeLocLoadedErrorMsg) then "" else s.strings[id]))
  {
  }

  /** Refreshing keeps the tables consistent. */
  lemma RefreshKeepsConsistent(s: LocState, trackers: seq<TrackerTable>)
    requires Consistent(s)
    ensures Consistent(RefreshLive(s, trackers))
    ensures RefreshLive(s, trackers).live.Keys == s.live.Keys
  {
  }

  /** The live entries outside `remaining` are refreshed; the rest are as in `s`. */
  predicate EntriesRefreshedExcept(s: LocState, trackers: seq<TrackerTable>, remaining: set<NamespaceKey>,
                                   live: map<NamespaceKey, DisplayStringEntry>) {
    live.Keys == s.live.Keys
    && forall k | k in s.live ::
         live[k] == if k in remaining then s.live[k] else RefreshedEntry(s.live[k], SourceEntryForUpdate(trackers, k))
  }

  /** The display strings of live entries outside `remaining` are
      refreshed; the rest are as in `s`. */
  predicate StringsRefreshedExcept(s: LocState, trackers: seq<TrackerTable>, remaining: set<NamespaceKey>,
                                   strings: map<DisplayId, string>) {
    strings.Keys == s.strings.Keys
    && forall id | id in s.strings ::
         strings[id] == if id in s.reverse && s.reverse[id] in s.live && s.reverse[id] !in remaining
                        then RefreshedText(s.live[s.reverse[id]], SourceEntryForUpdate(trackers, s.reverse[id]), s.strings[id])
                        else s.strings[id]
  }

  predicate RefreshedExcept(s: LocState, trackers: seq<TrackerTable>, remaining: set<NamespaceKey>,
                            live: map<NamespaceKey, DisplayStringEntry>, strings: map<DisplayId, string>) {
    EntriesRefreshedExcept(s, trackers, remaining, live) && StringsRefreshedExcept(s, trackers, remaining, strings)
  }

  lemma RefreshEntryStep(s: LocState, trackers: seq<TrackerTable>, remaining: set<NamespaceKey>,
                         live: map<NamespaceKey, DisplayStringEntry>, k: NamespaceKey)
    requires EntriesRefreshedExcept(s, trackers, remaining, live) && k in s.live
    ensures EntriesRefreshedExcept(s, trackers, remaining - {k},
                                   live[k := RefreshedEntry(s.live[k], SourceEntryForUpdate(trackers, k))])
  {
  }

  lemma RefreshStringStep(s: LocState, trackers: seq<TrackerTable>, remaining: set<NamespaceKey>,
                          strings: map<DisplayId, string>, k: NamespaceKey)
    requires Consistent(s) && StringsRefreshedExcept(s, trackers, remaining, strings) && k in s.live
    ensures var e := s.live[k];
      StringsRefreshedExcept(s, trackers, remaining - {k},
                             strings[e.displayString := RefreshedText(e, SourceEntryForUpdate(trackers, k), s.strings[e.displayString])])
  {
    var e := s.live[k];
    assert e.displayString in s.reverse && s.reverse[e.displayString] == k;
    var strings' := strings[e.displayString := RefreshedText(e, SourceEntryForUpdate(trackers, k), s.strings[e.displayString])];
    assert strings'.Keys == s.strings.Keys;
    forall id | id in s.strings
      ensures strings'[id] == if id in s.reverse && s.reverse[id] in s.live && s.reverse[id] !in remaining - {k}
                              then RefreshedText(s.live[s.reverse[id]], SourceEntryForUpdate(trackers, s.reverse[id]), s.strings[id])
                              else s.strings[id]
    {
      if id == e.displayString {
        assert id in s.reverse && s.reverse[id] == k;
      } else if id in s.reverse && s.reverse[id] in s.live {
        assert s.reverse[id] != k;
        assert strings'[id] == strings[id];
      } else {
        assert strings'[id] == strings[id];
      }
    }
  }

  lemma RefreshedAll(s: LocState, trackers: seq<TrackerTable>,
                     live: map<NamespaceKey, DisplayStringEntry>, strings: map<DisplayId, string>)
    requires RefreshedExcept(s, trackers, {}, live, strings)
    ensures s.(live := live, strings := strings) == RefreshLive(s, trackers)
  {
    assert live == RefreshLive(s, trackers).live;
    assert strings == RefreshLive(s, trackers).strings;
  }

  /** One iteration of the first loop. */
  method RefreshOne(s: LocState, trackers: seq<TrackerTable>, remaining: set<NamespaceKey>,
                    live: map<NamespaceKey, DisplayStringEntry>, strings: map<DisplayId, string>, k: NamespaceKey)
    returns (live': map<NamespaceKey, DisplayStringEntry>, strings': map<DisplayId, string>)
    requires Consistent(s) && RefreshedExcept(s, trackers, remaining, live, strings) && k in remaining && k in s.live
    ensures RefreshedExcept(s, trackers, remaining - {k}, live', strings')
  {
    RefreshEntryStep(s, trackers, remaining, live, k);
    RefreshStringStep(s, trackers, remaining, strings, k);
    var e := s.live[k];
    var src := SourceEntryForUpdate(trackers, k);
    live' := live[k := RefreshedEntry(e, src)];
    strings' := strings[e.displayString := RefreshedText(e, src, s.strings[e.displayString])];
  }

  /** The first loop of UpdateFromLocalizations, over the live entries:
      each takes the winning tracker entry when the hashes match. */
  method RefreshEntries(s: LocState, trackers: seq<TrackerTable>) returns (r: LocState)
    requires Consistent(s)
    ensures r == RefreshLive(s, trackers)
  {
    var live := s.live;
    var strings := s.strings;
    var remaining := s.live.Keys;
    while remaining != {}
      invariant remaining <= s.live.Keys
      invariant RefreshedExcept(s, trackers, remaining, live, strings)
      decreases remaining
    {
      var k :| k in remaining;
      live, strings := RefreshOne(s, trackers, remaining, live, strings, k);
      remaining := remaining - {k};
    }
    RefreshedAll(s, trackers, live, strings);
    r := s.(live := live, strings := strings);
  }

  /** Every tracker comes from loading resources. */
  predicate AllNonEmpty(trackers: seq<TrackerTable>) {
    forall i | 0 <= i < |trackers| :: NoEmptyArrays(trackers[i])
  }

  /** The namespaces and keys some tracker holds. */
  function TrackerKeys(trackers: seq<TrackerTable>): set<NamespaceKey> {
    set i, k | 0 <= i < |trackers| && k in trackers[i] :: k
  }

  lemma TrackerKeyHasSource(trackers: seq<TrackerTable>, k: NamespaceKey)
    requires AllNonEmpty(trackers) && k in TrackerKeys(trackers)
    ensures SourceEntryForUpdate(trackers, k).Some?
  {
    var i :| 0 <= i < |trackers| && k in trackers[i];
    assert HasEntry(trackers[i], k);
  }

  /** A live entry added by the update: localized, from the winning
      tracker entry. */
  predicate AddedFrom(e: DisplayStringEntry, src: Option<LocEntry>) {
    src.Some? && e.isLocalized && e.locResId == src.value.locResId && e.sourceHash == src.value.sourceHash
  }

  /** One step of the second half: a localized entry for `k`, with a new
      display string holding the winning localized string. */
  function AddEntryFrom(r: LocState, k: NamespaceKey, e: LocEntry): LocState {
    var id := r.nextId;
    r.(live := r.live[k := DisplayStringEntry(true, e.locResId, e.sourceHash, id)],
       reverse := r.reverse[id := k], strings := r.strings[id := e.localizedString], nextId := id + 1)
  }

  /** `r` keeps every live entry and display string of `s` and changes
      nothing else but the tables and the next identifier. */
  predicate KeepsExisting(s: LocState, r: LocState) {
    s.nextId <= r.nextId
    && (forall k | k in s.live :: k in r.live && r.live[k] == s.live[k])
    && (forall id | id in s.strings :: id in r.strings && r.strings[id] == s.strings[id])
    && r.localRevisions == s.localRevisions && r.textRevision == s.textRevision && r.isInitialized == s.isInitialized
  }

  /** Every live entry of `r` that `s` lacks is localized from the winning
      tracker entry, with its own new display string holding the
      localized string. */
  predicate NewEntriesFromTrackers(s: LocState, trackers: seq<TrackerTable>, r: LocState) {
    forall k | k in r.live && k !in s.live ::
      AddedFrom(r.live[k], SourceEntryForUpdate(trackers, k)) && r.live[k].displayString >= s.nextId
      && r.live[k].displayString in r.strings
      && r.strings[r.live[k].displayString] == SourceEntryForUpdate(trackers, k).value.localizedString
  }

  predicate ExtendsWithNewEntries(s: LocState, trackers: seq<TrackerTable>, r: LocState) {
    Consistent(r) && KeepsExisting(s, r) && NewEntriesFromTrackers(s, trackers, r)
  }

  lemma KeepsExistingStep(s: LocState, r: LocState, k: NamespaceKey, e: LocEntry)
    requires Consistent(s) && KeepsExisting(s, r) && k !in r.live
    ensures KeepsExisting(s, AddEntryFrom(r, k, e))
  {
  }

  lemma NewEntriesStep(s: LocState, trackers: seq<TrackerTable>, r: LocState, k: NamespaceKey)
    requires Consistent(r) && KeepsExisting(s, r) && NewEntriesFromTrackers(s, trackers, r) && k !in r.live
    requires SourceEntryForUpdate(trackers, k).Some?
    ensures NewEntriesFromTrackers(s, trackers, AddEntryFrom(r, k, SourceEntryForUpdate(trackers, k).value))
  {
    var e := SourceEntryForUpdate(trackers, k).value;
    var r' := AddEntryFrom(r, k, e);
    forall k' | k' in r'.live && k' !in s.live
      ensures AddedFrom(r'.live[k'], SourceEntryForUpdate(trackers, k')) && r'.live[k'].displayString >= s.nextId
        && r'.live[k'].displayString in r'.strings
        && r'.strings[r'.live[k'].displayString] == SourceEntryForUpdate(trackers, k').value.localizedString
    {
      if k' != k {
        assert r.live[k'].displayString in r.reverse;
      }
    }
  }

  lemma AddEntryStep(s: LocState, trackers: seq<TrackerTable>, r: LocState, k: NamespaceKey)
    requires Consistent(s) && ExtendsWithNewEntries(s, trackers, r) && k !in r.live
    requires AllNonEmpty(trackers) && k in TrackerKeys(trackers)
    ensures SourceEntryForUpdate(trackers, k).Some?
    ensures ExtendsWithNewEntries(s, trackers, AddEntryFrom(r, k, SourceEntryForUpdate(trackers, k).value))
  {
    TrackerKeyHasSource(trackers, k);
    var e := SourceEntryForUpdate(trackers, k).value;
    var id := r.nextId;
    AddFreshKeepsConsistent(r, k, id, DisplayStringEntry(true, e.locResId, e.sourceHash, id), e.localizedString);
    KeepsExistingStep(s, r, k, e);
    NewEntriesStep(s, trackers, r, k);
  }

  /** One iteration of the second half, for a key the live table lacks. */
  method AddEntry(s: LocState, trackers: seq<TrackerTable>, r: LocState, k: NamespaceKey) returns (r': LocState)
    requires Consistent(s) && ExtendsWithNewEntries(s, trackers, r) && k !in r.live
    requires AllNonEmpty(trackers) && k in TrackerKeys(trackers)
    ensures ExtendsWithNewEntries(s, trackers, r')
    ensures r'.live.Keys == r.live.Keys + {k}
  {
    AddEntryStep(s, trackers, r, k);
    r' := AddEntryFrom(r, k, SourceEntryForUpdate(trackers, k).value);
  }

  /** The second half of UpdateFromLocalizations: a localized entry, with a
      new display string holding the winning localized string, for every
      key some tracker holds and the live table lacks. */
  method AddNewEntries(s: LocState, trackers: seq<TrackerTable>) returns (r: LocState)
    requires Consistent(s) && AllNonEmpty(trackers)
    ensures r.live.Keys == s.live.Keys + TrackerKeys(trackers)
    ensures ExtendsWithNewEntries(s, trackers, r)
  {
    var keys := TrackerKeys(trackers);
    var remaining := keys - s.live.Keys;
    r := s;
    while remaining != {}
      invariant remaining <= keys && r.live.Keys !! remaining
      invariant r.live.Keys + remaining == s.live.Keys + keys
      invariant ExtendsWithNewEntries(s, trackers, r)
      decreases remaining
    {
      var k :| k in remaining;
      r := AddEntry(s, trackers, r, k);
      remaining := remaining - {k};
    }
  }

  /** Registering a new display string under an unused namespace and key
      keeps the tables consistent. */
  lemma AddFreshKeepsConsistent(s: LocState, k: NamespaceKey, id: DisplayId, e: DisplayStringEntry, value: string)
    requires Consistent(s) && k !in s.live && id == s.nextId && e.displayString == id
    ensures Consistent(s.(live := s.live[k := e], reverse := s.reverse[id := k], strings := s.strings[id := value], nextId := id + 1))
  {
    var r := s.(live := s.live[k := e], reverse := s.reverse[id := k], strings := s.strings[id := value], nextId := id + 1);
    forall id' | id' in r.reverse
      ensures r.reverse[id'] in r.live && r.live[r.reverse[id']].displayString == id'
    {
      if id' != id {
        assert s.reverse[id'] != k;
      }
    }
  }

  /** FTextLocalizationManager. `StrCrc32` hashes source strings. */
  class TextLocalizationManager {
    var DisplayStringLookupTable: map<NamespaceKey, DisplayStringEntry>
    var NamespaceKeyLookupTable: map<DisplayId, NamespaceKey>
    var DisplayStrings: map<DisplayId, string>
    var NextDisplayId: DisplayId
    var LocalTextRevisions: map<DisplayId, u16>
    var TextRevisionCounter: u16
    var IsInitialized: bool
    const StrCrc32: string -> u32

    function State(): LocState
      reads this
    {
      LocState(DisplayStringLookupTable, NamespaceKeyLookupTable, DisplayStrings, NextDisplayId,
               LocalTextRevisions, TextRevisionCounter, IsInitialized)
    }

    predicate Valid()
      reads this
    {
      Consistent(State())
    }

    /** Empty tables, not yet initialized. */
    constructor(hash: string -> u32, initialRevision: u16)
      ensures StrCrc32 == hash
      ensures State() == LocState(map[], map[], map[], 0, map[], initialRevision, false)
      ensures Valid()
    {
      StrCrc32 := hash;
      DisplayStringLookupTable, NamespaceKeyLookupTable, DisplayStrings := map[], map[], map[];
      NextDisplayId, LocalTextRevisions, TextRevisionCounter, IsInitialized := 0, map[], initialRevision, false;
    }

    method Replace(next: LocState)
      modifies this
      ensures State() == next
    {
      DisplayStringLookupTable, NamespaceKeyLookupTable, DisplayStrings := next.live, next.reverse, next.strings;
      NextDisplayId, LocalTextRevisions, TextRevisionCounter, IsInitialized :=
        next.nextId, next.localRevisions, next.textRevision, next.isInitialized;
    }

    /** The end of EndInitTextLocalization. */
    method EndInitialization()
      modifies this
      ensures State() == old(State()).(isInitialized := true)
    {
      IsInitialized := true;
    }

    /** DirtyLocalRevisionForDisplayString. */
    method DirtyLocalRevisionForDisplayString(id: DisplayId)
      modifies this
      ensures State() == DirtyLocal(old(State()), id)
    {
      if id in LocalTextRevisions {
        var next := IncrementSkippingZero(LocalTextRevisions[id]);
        LocalTextRevisions := LocalTextRevisions[id := next];
      } else {
        LocalTextRevisions := LocalTextRevisions[id := 1];
      }
    }

    /** DirtyTextRevision. */
    method DirtyTextRevision()
      modifies this
      ensures State() == DirtyText(old(State()))
    {
      TextRevisionCounter := IncrementSkippingZero(TextRevisionCounter);
      LocalTextRevisions := map[];
    }

    /** GetDisplayString. */
    method GetDisplayString(namespace: string, key: string, source: Option<string>) returns (id: DisplayId)
      requires Valid()
      modifies this
      ensures var r := DisplayStringFor(old(State()), NamespaceKey(namespace, key), source,
                                                         if source.Some? then StrCrc32(source.value) else 0);
        State() == r.state && id == r.id
      ensures Valid()
    {
      var k := NamespaceKey(namespace, key);
      var sourceHash := if source.Some? then StrCrc32(source.value) else 0;
      GetKeepsConsistent(State(), k, source, sourceHash);
      var text := if source.Some? then source.value else "";
      if namespace == "" && key == "" {
        id := NextDisplayId;
        Replace(State().(strings := DisplayStrings[id := text], nextId := id + 1));
      } else if k in DisplayStringLookupTable {
        var e := DisplayStringLookupTable[k];
        id := e.displayString;
        if sourceHash != 0 && sourceHash != e.sourceHash {
          Replace(State().(live := DisplayStringLookupTable[k := e.(sourceHash := sourceHash, isLocalized := false)],
                           strings := DisplayStrings[id := text]));
          DirtyLocalRevisionForDisplayString(id);
        }
      } else {
        if text == "" && !IsInitialized {
          text := AccessedStringBeforeLocLoadedErrorMsg;
        }
        id := NextDisplayId;
        Replace(State().(live := DisplayStringLookupTable[k := DisplayStringEntry(false, "", sourceHash, id)],
                         reverse := NamespaceKeyLookupTable[id := k], strings := DisplayStrings[id := text], nextId := id + 1));
      }
    }

    /** AddDisplayString: registers the display string under the namespace
        and key in both tables, unless either side is already taken by
        something else. */
    method AddDisplayString(id: DisplayId, namespace: string, key: string) returns (ok: bool)
      requires Valid() && id in DisplayStrings
      modifies this
      ensures ok == !AddConflicts(old(State()), id, NamespaceKey(namespace, key))
      ensures ok ==> State() == AddedDisplayString(old(State()), id, NamespaceKey(namespace, key), StrCrc32(old(DisplayStrings)[id]))
      ensures !ok ==> State() == old(State())
      ensures Valid()
    {
      var k := NamespaceKey(namespace, key);
      if (k in DisplayStringLookupTable && DisplayStringLookupTable[k].displayString != id)
         || (id in NamespaceKeyLookupTable && NamespaceKeyLookupTable[id] != k) {
        return false;
      }
      AddKeepsConsistent(State(), id, k, StrCrc32(DisplayStrings[id]));
      Replace(AddedDisplayString(State(), id, k, StrCrc32(DisplayStrings[id])));
      return true;
    }

    /** UpdateDisplayString: moves the display string's entry to the new
        namespace and key unless they are in use by another, assigns the
        new value and dirties the local revision. */
    method UpdateDisplayString(id: DisplayId, value: string, namespace: string, key: string) returns (ok: bool)
      requires Valid() && id in NamespaceKeyLookupTable
      modifies this
      ensures ok == !UpdateConflicts(old(State()), id, NamespaceKey(namespace, key))
      ensures ok ==> State() == UpdatedDisplayString(old(State()), id, value, NamespaceKey(namespace, key))
      ensures !ok ==> State() == old(State())
      ensures Valid()
    {
      var k := NamespaceKey(namespace, key);
      var oldKey := NamespaceKeyLookupTable[id];
      var live := DisplayStringLookupTable;
      if oldKey != k {
        if k in DisplayStringLookupTable {
          return false;
        }
        live := (live - {oldKey})[k := live[oldKey]];
      }
      UpdateKeepsConsistent(State(), id, value, k);
      Replace(State().(live := live, strings := DisplayStrings[id := value], reverse := NamespaceKeyLookupTable[id := k]));
      DirtyLocalRevisionForDisplayString(id);
      return true;
    }

    /** UpdateFromLocalizations, with the trackers in priority order: live
        entries are refreshed from the first tracker holding them, keys only
        the trackers hold get new localized entries, and the text revision
        is dirtied. */
    method UpdateFromLocalizations(trackers: seq<TrackerTable>)
      requires Valid() && AllNonEmpty(trackers)
      modifies this
      ensures Valid()
      ensures DisplayStringLookupTable.Keys == old(DisplayStringLookupTable).Keys + TrackerKeys(trackers)
      ensures forall k | k in old(DisplayStringLookupTable) ::
        DisplayStringLookupTable[k] == RefreshLive(old(State()), trackers).live[k]
      ensures forall id | id in old(DisplayStrings) ::
        id in DisplayStrings && DisplayStrings[id] == RefreshLive(old(State()), trackers).strings[id]
      ensures NewEntriesFromTrackers(old(State()), trackers, State())
      ensures TextRevisionCounter == NextRevision(old(TextRevisionCounter)) && LocalTextRevisions == map[]
      ensures IsInitialized == old(IsInitialized)
    {
      var refreshed := RefreshEntries(State(), trackers);
      RefreshKeepsConsistent(old(State()), trackers);
      var added := AddNewEntries(refreshed, trackers);
      Replace(added);
      DirtyTextRevision();
    }
  }
}
