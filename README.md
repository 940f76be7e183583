# multipeer-test session controller, modelled in Dafny

The app is one iOS view controller that glues a table view and a text field to
a peer-to-peer session. Apart from the framework calls, the logic it holds is a small
session controller:

- a **roster** of connected peers (`peers`), a list used as a set. A
  `.connected` event adds the peer if it is absent. A `.notConnected` event
  removes it where it sits. A `.connecting` event only logs.
- a **message log** (`messages`). Send appends the local text and broadcasts
  it to the current roster. Receive appends the remote text when the bytes
  decode as UTF-8. Clear empties the log. The table shows one row per message.
- a **header title** that depends only on the roster size: `"No friends yet"`
  or `"<n> friends"`.
- a **local identity** read from the user-defaults store, or minted and
  stored when the stored display name is not the current device name.

Modules:

- `Wrappers` (wrappers.dfy): `Option`, the counterpart of Swift's optionals.
- `Roster` (roster.dfy): the roster as a specification. It has the
  state-change function `Apply`, a reference filter `Without`, `IndexOf` and
  `RemoveAt` (the array operations the handler uses), event replay, and the
  lemmas about them.
- `HeaderTitle` (header_title.dfy): the title text, decimal rendering of the
  count, and `CountInTitle`, which reads a title back.
- `IdentityStore` (identity_store.dfy): the defaults store as a `map`, and the
  get-or-create lookup as the function `GetOrCreate`.
- `Session` (session.dfy): class `ViewController`. Its fields are the ones the
  source updates in place, plus an outbox of sends and a token counter. Its
  methods are the handlers, proved against the functions above. `Valid()`
  is the invariant every handler keeps: the roster has no duplicates, and
  every identity issued so far is distinct from any minted later.

Abstractions:

- `MCPeerID` is `PeerId(displayName, serial)`. Minting a new id
  (`MCPeerID(displayName:)`) takes the class's counter `nextSerial` as its
  token. The counter starts past the token of any identity already in the
  persisted store.
- `UIDevice.current.name` is a parameter of `PeerIdentity`.
- `textField.text` is a parameter of type `Option<string>`.
- UTF-8 decoding (`String(data:encoding:)`) is a function value `utf8` given
  to the constructor.
- `session.send` is recorded as an outbox entry `Transmission(text, recipients)`.
  Encoding a Swift `String` as UTF-8 (line 104) always succeeds, so every
  accepted message produces exactly one entry.
- The archived identity is stored as the token itself (`Archived(id)`).

The model follows the code:

- Send guards only on `message.count > 0` (multipeertest/ViewController.swift:100).
  It does not trim, so whitespace-only text is logged and sent.
- The force-unwrap and forced cast of the stored identity
  (multipeertest/ViewController.swift:22-23) are a precondition of
  `PeerIdentity`, `CanUnwrap`. The code does not fall back to a fresh
  identity. `GetOrCreate` proves that its own writes re-establish
  `CanUnwrap`.
- A send is recorded even when the roster is empty, whatever the framework does
  with an empty recipient list. Any error it throws is discarded by `try?`
  (multipeertest/ViewController.swift:105).

## Model

| member | source | states |
|---|---|---|
| Roster.IndexOf | multipeertest/ViewController.swift:145 | `peers.index(of:)`: `None` exactly when the peer is absent; otherwise the position holds the peer and no earlier position does |
| Roster.RemoveAt | multipeertest/ViewController.swift:146 | `peers.remove(at:)`: one entry shorter; entries before the index keep their place, entries after it move down by one |
| Roster.Without | multipeertest/ViewController.swift:144-147 | reference removal: the set of elements is the old set minus the peer, and the result is never longer |
| Roster.WithoutAbsent | multipeertest/ViewController.swift:145 | removing an absent peer leaves the roster unchanged |
| Roster.WithoutKeepsDistinct | multipeertest/ViewController.swift:144-147 | removal keeps the roster free of duplicates |
| Roster.RemoveFirstIsWithout | multipeertest/ViewController.swift:144-147 | on a roster without duplicates, removing the peer at the position where it was found is the reference removal `Without`; other peers keep their relative order |
| Roster.Apply | multipeertest/ViewController.swift:139-150 | the roster after one event: `.connected` leaves the peer present, `.notConnected` leaves it absent, and the roster grows by at most one; `ConnectedEvent`, `NotConnectedEvent` and `ConnectingEvent` give the full effect |
| Roster.ApplyKeepsDistinct | multipeertest/ViewController.swift:138-152 | every state-change event keeps the no-duplicates invariant |
| Roster.ConnectedEvent | multipeertest/ViewController.swift:140-143 | after `.connected` the peer is in the roster; the old entries keep their positions; the roster grows by one exactly when the peer was absent; the element set gains just that peer |
| Roster.ConnectedIdempotent | multipeertest/ViewController.swift:140-143 | a repeated `.connected` for the same peer changes nothing |
| Roster.NotConnectedEvent | multipeertest/ViewController.swift:144-147 | after `.notConnected` the peer is absent, the element set loses just that peer, and an absent peer leaves the roster unchanged; on a roster without duplicates the result is the roster with the peer's position removed, so the other peers keep their relative order |
| Roster.NotConnectedIdempotent | multipeertest/ViewController.swift:144-147 | a repeated `.notConnected` for the same peer changes nothing |
| Roster.ConnectingEvent | multipeertest/ViewController.swift:148-149 | `.connecting` leaves the roster unchanged |
| Roster.ReplayTracksConnections | multipeertest/ViewController.swift:138-152 | for every sequence of events from an empty roster, the roster has no duplicates and holds exactly the peers whose latest connect/disconnect event was a connect |
| Roster.LinkedIsNamed | multipeertest/ViewController.swift:138-152 | a peer counted as connected is named by some event |
| Roster.DistinctCardinality | multipeertest/ViewController.swift:42 | a roster without duplicates has as many entries as distinct peers |
| Roster.RosterSizeIsConnectedCount | multipeertest/ViewController.swift:138-152 | for every sequence of events, the roster size equals the number of peers currently connected |
| HeaderTitle.Digit | multipeertest/ViewController.swift:82 | one decimal digit character whose value is the digit |
| HeaderTitle.Decimal | multipeertest/ViewController.swift:82 | interpolating the count gives a non-empty string of digits, with a leading zero only for 0 |
| HeaderTitle.DecimalRoundTrip | multipeertest/ViewController.swift:82 | parsing the decimal text gives back the count |
| HeaderTitle.TitleFor | multipeertest/ViewController.swift:80-86 | the title is "No friends yet" exactly when the roster is empty; otherwise it is the decimal count followed by " friends" |
| HeaderTitle.TitleRoundTrip | multipeertest/ViewController.swift:80-86 | the roster size can be read back from the title, so the title shows the exact decimal count |
| HeaderTitle.TitleInjective | multipeertest/ViewController.swift:80-86 | different roster sizes give different titles |
| HeaderTitle.OnePeerTitle | multipeertest/ViewController.swift:82 | no singular form: one peer gives "1 friends" |
| IdentityStore.GetOrCreate | multipeertest/ViewController.swift:18-32 | afterwards the stored name is the device name and the stored identity is the one returned; on a matching name the stored identity is returned and nothing is written; otherwise a new identity with the device name is minted; no other key changes; a later lookup can unwrap safely |
| IdentityStore.SecondLookupStable | multipeertest/ViewController.swift:18-32 | a second lookup with the same device name returns the identity of the first and leaves the store unchanged |
| IdentityStore.RenameMintsNewIdentity | multipeertest/ViewController.swift:18-32 | a lookup with a changed device name returns the newly minted identity and stores it with the new name |
| Session.ViewController.constructor | multipeertest/ViewController.swift:39-42 | empty log, roster and outbox, the persisted defaults, and no title yet |
| Session.ViewController.ViewDidLoad | multipeertest/ViewController.swift:46-59 | the session's and the advertiser's identity reads (lines 51, 54) give the same identity, the store is `GetOrCreate` of the old store, and the title shows the roster size (line 58) |
| Session.ViewController.NumberOfRows | multipeertest/ViewController.swift:68-70 | the table has one row per logged message |
| Session.ViewController.PeerIdentity | multipeertest/ViewController.swift:18-32 | the result and the new store are `GetOrCreate` of the old store; on a matching name the stored identity is returned and nothing is written; otherwise the identity is distinct from every earlier one |
| Session.ViewController.UpdateTitle | multipeertest/ViewController.swift:80-86 | the title is `TitleFor` of the roster size, and the size reads back from it |
| Session.ViewController.DidChange | multipeertest/ViewController.swift:138-152 | the roster becomes `Apply` of the old roster (so `ConnectedEvent`, `NotConnectedEvent` and `ConnectingEvent` describe it), with the roster kept free of duplicates; the title is refreshed to `TitleFor` of the new size; the log and the sends are untouched |
| Session.ViewController.DidTapSend | multipeertest/ViewController.swift:98-108 | present, non-empty text (whitespace included) is appended to the log, one more table row appears, and it is sent once to exactly the current roster; otherwise log and sends are unchanged; the roster is unchanged |
| Session.ViewController.DidTapClear | multipeertest/ViewController.swift:110-113 | the log is empty and the table has no rows, whatever was there before; roster and sends unchanged |
| Session.ViewController.DidReceive | multipeertest/ViewController.swift:128-136 | decodable bytes append exactly the decoded text (one more row); undecodable bytes leave the log unchanged; roster and sends unchanged |

## Left out

- View lifecycle and rendering: creating the session and the advertiser in
  `viewDidLoad`, `viewWillDisappear`, table cells (`cellForRowAt`),
  `reloadData`, `endEditing`, the browser controller (`didTapBrowse`,
  presenting and dismissing it), alerts and `textFieldShouldReturn`. These
  are UI and framework calls with no state of the model. The state that
  `viewDidLoad` does change is modelled by `ViewDidLoad`: two reads of the
  identity and the title update. Before it the title is the empty string,
  which stands for Swift's `nil`.
- Framework internals: `MCSession`, the advertiser and its failure alert, auto-accepting
  invitations (line 123), the transport and its errors. A send is only recorded in the outbox.
- `DispatchQueue.main.async` (line 131): thread marshalling. The append on
  receive happens directly.
- Session.ViewController.DidChange and Session.ViewController.DidTapSend: the model runs every
  handler as one atomic step on one thread. In the source the state-change handler
  (lines 138-152) changes `peers` and the title on the session's callback thread, not
  the main queue. A roster update can therefore interleave with `didTapSend` reading
  `peers` at line 105. "Sent to exactly the current roster" holds only when the
  handlers run one at a time. The model does not capture that interleaving.
- `NSKeyedArchiver`/`NSKeyedUnarchiver`: a foreign encoding. The store holds
  the identity token itself.
- UTF-8 validation by `String(data:encoding:)`. This is a library call, left
  abstract as the function `utf8`.
- The resource and stream callbacks (lines 154-164) and all `print` logging. They
  only log.
- IdentityStore.GetOrCreate: names are compared character by character (code points),
  while Swift's `==` at line 21 treats canonically equivalent strings as equal. For a device
  name that differs from the stored one only in Unicode normalisation (precomposed "é"
  against "e" plus a combining accent), the model mints a new identity where the source
  returns the stored one. Unicode normalisation is not modelled.
- IdentityStore.RenameMintsNewIdentity: its `oldName != newName` is the same
  character-by-character test. A name that is canonically equivalent to the old one counts
  as a rename here, while Swift would return the stored identity.
- Session.ViewController.PeerIdentity: it compares the device name with the stored name
  character by character, like `GetOrCreate`. It therefore mints a new identity, where the
  source returns the stored one, for names that differ only in Unicode normalisation.
- Session.ViewController.PeerIdentity: it does not model a stored name that matches
  while the stored identity is missing or corrupt. The source crashes there, and the
  model makes the case a precondition (`CanUnwrap`).
