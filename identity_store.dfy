/**
 * The local peer identity kept in the user-defaults store (the `peerID`
 * property of the view controller). The store maps keys to settings; the
 * identity is kept as the token itself rather than as archived bytes.
 */
module IdentityStore {
  import opened Wrappers

  /** An `MCPeerID`: a display name and a token that tells minted ids apart. */
  datatype PeerId = PeerId(displayName: string, serial: nat)

  /** What a defaults key can hold: a string, or an archived peer id. */
  datatype Setting = Text(text: string) | Archived(id: PeerId)

  type Defaults = map<string, Setting>

  const DisplayNameKey := "Display Name"
  const PeerIdKey := "Peer ID"

  /** `defaults.string(forKey:)`: the string at `key`, if it holds one. */
  function StringFor(d: Defaults, key: string): Option<string>
  {
    if key in d && d[key].Text? then Some(d[key].text) else None
  }

  /** `defaults.data(forKey:)` unarchived as an `MCPeerID`, if that succeeds. */
  function StoredIdentity(d: Defaults): Option<PeerId>
  {
    if PeerIdKey in d && d[PeerIdKey].Archived? then Some(d[PeerIdKey].id) else None
  }

  /** The stored display name is the current device name. */
  predicate NameMatches(d: Defaults, deviceName: string)
  {
    StringFor(d, DisplayNameKey) == Some(deviceName)
  }

  /**
   * What the getter's force-unwrap and forced cast demand: when the stored
   * name matches, an archived identity is stored as well.
   */
  predicate CanUnwrap(d: Defaults, deviceName: string)
  {
    NameMatches(d, deviceName) ==> StoredIdentity(d).Some?
  }

  datatype Lookup = Lookup(id: PeerId, defaults: Defaults)

  /**
   * The identity lookup: the stored identity when the stored display name is
   * the device name; otherwise a new identity minted with token `serial`, with
   * the name and the identity written back. No other key is touched.
   */
  function GetOrCreate(d: Defaults, deviceName: string, serial: nat): (r: Lookup)
    requires CanUnwrap(d, deviceName)
    ensures NameMatches(r.defaults, deviceName)
    ensures StoredIdentity(r.defaults) == Some(r.id)
    ensures CanUnwrap(r.defaults, deviceName)
    ensures NameMatches(d, deviceName) ==> r.id == StoredIdentity(d).value && r.defaults == d
    ensures !NameMatches(d, deviceName) ==> r.id == PeerId(deviceName, serial)
    ensures forall k :: k != DisplayNameKey && k != PeerIdKey ==>
              (k in r.defaults <==> k in d) && (k in d ==> r.defaults[k] == d[k])
  {
    if NameMatches(d, deviceName) then
      Lookup(StoredIdentity(d).value, d)
    else
      var id := PeerId(deviceName, serial);
      Lookup(id, d[DisplayNameKey := Text(deviceName)][PeerIdKey := Archived(id)])
  }

  /**
   * Two lookups with the same device name (two launches, or the two reads in
   * one launch) give the same identity, and the second one writes nothing.
   */
  lemma SecondLookupStable(d: Defaults, deviceName: string, serial1: nat, serial2: nat)
    requires CanUnwrap(d, deviceName)
    ensures var first := GetOrCreate(d, deviceName, serial1);
            GetOrCreate(first.defaults, deviceName, serial2) == first
  {
  }

  /** After a rename, the lookup answers with the newly minted identity and stores it. */
  lemma RenameMintsNewIdentity(d: Defaults, oldName: string, newName: string, serial1: nat, serial2: nat)
    requires CanUnwrap(d, oldName) && oldName != newName
    ensures var first := GetOrCreate(d, oldName, serial1);
            var second := GetOrCreate(first.defaults, newName, serial2);
            second.id == PeerId(newName, serial2)
            && StoredIdentity(second.defaults) == Some(second.id)
            && NameMatches(second.defaults, newName)
  {
  }
}
