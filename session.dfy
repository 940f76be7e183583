/**
 * The view controller's session logic: the roster of connected peers, the
 * message log, the header title, the identity lookup and the sends it issues.
 * The class keeps the fields the controller updates in place; each method is
 * proved against the functions of modules Roster, HeaderTitle and
 * IdentityStore.
 */
module Session {
  import opened Wrappers
  import opened Roster
  import opened HeaderTitle
  import opened IdentityStore

  newtype byte = x: int | 0 <= x < 256

  /** One `session.send(_:toPeers:with:)` call: the text and its recipients. */
  datatype Transmission = Transmission(text: string, recipients: seq<PeerId>)

  class ViewController {
    var defaults: Defaults
    var nextSerial: nat
    ghost var issued: set<PeerId>

    var messages: seq<string>
    var peers: seq<PeerId>
    var title: string
    var outbox: seq<Transmission>

    /** `String(data:encoding: .utf8)`, a library decoder the model leaves abstract. */
    const utf8: seq<byte> -> Option<string>

    /**
     * The roster has no duplicates; every identity issued so far carries a
     * token below the counter, and the stored identity is one of them.
     */
    ghost predicate Valid()
      reads this
    {
      && NoDuplicates(peers)
      && (forall id :: id in issued ==> id.serial < nextSerial)
      && (StoredIdentity(defaults).Some? ==> StoredIdentity(defaults).value in issued)
    }

    /**
     * A controller over the persisted defaults, with the initial property
     * values; it has no title until `ViewDidLoad`. The token counter starts
     * past the persisted identity.
     */
    constructor(persisted: Defaults, utf8: seq<byte> -> Option<string>)
      ensures Valid()
      ensures defaults == persisted && this.utf8 == utf8
      ensures messages == [] && peers == [] && outbox == []
      ensures title == ""
    {
      defaults := persisted;
      this.utf8 := utf8;
      messages, peers, outbox := [], [], [];
      title := "";
      match StoredIdentity(persisted) {
        case Some(id) =>
          issued, nextSerial := {id}, id.serial + 1;
        case None =>
          issued, nextSerial := {}, 0;
      }
    }

    /** `tableView(_:numberOfRowsInSection:)`: one row per logged message. */
    function NumberOfRows(): (n: nat)
      reads this
      ensures n == |messages|
    {
      |messages|
    }

    /**
     * The `peerID` getter: on a matching stored name, the stored identity and
     * no write; otherwise a freshly minted identity, distinct from every
     * earlier one, written back with the device name.
     */
    method PeerIdentity(deviceName: string) returns (id: PeerId)
      requires Valid()
      requires CanUnwrap(defaults, deviceName)
      modifies this`defaults, this`nextSerial, this`issued
      ensures Valid()
      ensures Lookup(id, defaults) == GetOrCreate(old(defaults), deviceName, old(nextSerial))
      ensures NameMatches(defaults, deviceName) && StoredIdentity(defaults) == Some(id)
      ensures old(NameMatches(defaults, deviceName)) ==>
                id == old(StoredIdentity(defaults)).value && defaults == old(defaults)
      ensures !old(NameMatches(defaults, deviceName)) ==>
                id.displayName == deviceName && id !in old(issued) && issued == old(issued) + {id}
    {
      if StringFor(defaults, DisplayNameKey) == Some(deviceName) {
        id := StoredIdentity(defaults).value;
      } else {
        id := PeerId(deviceName, nextSerial);
        nextSerial := nextSerial + 1;
        issued := issued + {id};
        defaults := defaults[DisplayNameKey := Text(deviceName)];
        defaults := defaults[PeerIdKey := Archived(id)];
      }
    }

    /**
     * The model state `viewDidLoad` changes: it reads the `peerID` property
     * twice, for the session and for the advertiser, then updates the title.
     * Both reads give the same identity, and only the first may write.
     */
    method ViewDidLoad(deviceName: string) returns (sessionPeer: PeerId, advertiserPeer: PeerId)
      requires Valid()
      requires CanUnwrap(defaults, deviceName)
      modifies this`defaults, this`nextSerial, this`issued, this`title
      ensures Valid()
      ensures sessionPeer == advertiserPeer
      ensures Lookup(sessionPeer, defaults) == GetOrCreate(old(defaults), deviceName, old(nextSerial))
      ensures title == TitleFor(|peers|)
    {
      sessionPeer := PeerIdentity(deviceName);
      advertiserPeer := PeerIdentity(deviceName);
      UpdateTitle();
    }

    /** `updateTitle`: the title shows the roster size. */
    method UpdateTitle()
      modifies this`title
      ensures title == TitleFor(|peers|)
      ensures CountInTitle(title) == Some(|peers|)
    {
      if |peers| > 0 {
        title := Decimal(|peers|) + FriendsSuffix;
      } else {
        title := NoFriends;
      }
      TitleRoundTrip(|peers|);
    }

    /**
     * `session(_:peer:didChange:)`: `.connected` adds an absent peer at the
     * end, `.notConnected` removes the peer where it sits, `.connecting` only
     * logs; the title is refreshed. The message log and the sends are untouched.
     * What each event does to the roster is stated by the lemmas about `Apply`
     * (ConnectedEvent, NotConnectedEvent, ConnectingEvent).
     */
    method DidChange(peer: PeerId, state: SessionState)
      requires Valid()
      modifies this`peers, this`title
      ensures Valid()
      ensures peers == Apply(old(peers), peer, state)
      ensures title == TitleFor(|peers|)
      ensures messages == old(messages) && outbox == old(outbox)
    {
      ghost var before := peers;
      match state {
        case Connected =>
          if peer !in peers {
            peers := peers + [peer];
          }
        case NotConnected =>
          var index := IndexOf(peers, peer);
          if index.Some? {
            assert peers[index.value] == peer;
            RemoveFirstIsWithout(peers, peer, index.value);
            peers := RemoveAt(peers, index.value);
          } else {
            WithoutAbsent(peers, peer);
          }
        case Connecting =>
      }
      assert NoDuplicates(peers) by {
        ApplyKeepsDistinct(before, peer, state);
      }
      UpdateTitle();
    }

    /**
     * `didTapSend`: a present, non-empty text (whitespace counts as text) is
     * appended to the log and sent once, to exactly the current roster;
     * otherwise nothing happens. The roster is untouched.
     */
    method DidTapSend(text: Option<string>)
      requires Valid()
      modifies this`messages, this`outbox
      ensures Valid()
      ensures text.Some? && |text.value| > 0 ==>
                && messages == old(messages) + [text.value]
                && outbox == old(outbox) + [Transmission(text.value, peers)]
                && NumberOfRows() == old(NumberOfRows()) + 1
      ensures !(text.Some? && |text.value| > 0) ==> messages == old(messages) && outbox == old(outbox)
      ensures peers == old(peers)
    {
      if text.Some? && |text.value| > 0 {
        var message := text.value;
        messages := messages + [message];
        outbox := outbox + [Transmission(message, peers)];
      }
    }

    /** `didTapClear`: the log is emptied; nothing else changes. */
    method DidTapClear()
      requires Valid()
      modifies this`messages
      ensures Valid()
      ensures messages == [] && NumberOfRows() == 0
      ensures peers == old(peers) && outbox == old(outbox)
    {
      messages := [];
    }

    /**
     * `session(_:didReceive:fromPeer:)`: bytes that decode as UTF-8 append
     * the decoded text to the log; other bytes are dropped. The roster and
     * the sends are untouched.
     */
    method DidReceive(data: seq<byte>, from: PeerId)
      requires Valid()
      modifies this`messages
      ensures Valid()
      ensures utf8(data).Some? ==>
                messages == old(messages) + [utf8(data).value] && NumberOfRows() == old(NumberOfRows()) + 1
      ensures utf8(data).None? ==> messages == old(messages)
      ensures peers == old(peers) && outbox == old(outbox)
    {
      match utf8(data) {
        case Some(message) =>
          messages := messages + [message];
        case None =>
      }
    }
  }
}
