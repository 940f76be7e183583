/**
 * The roster of connected peers: a list that the view controller uses as a
 * set (`peers: [MCPeerID]`), together with the connection events that change
 * it. The functions here are the specification of the roster; the class in
 * module Session updates its `peers` field in place and is proved against them.
 */
module Roster {
  import opened Wrappers

  /** The three states a session reports for a peer (`MCSessionState`). */
  datatype SessionState = NotConnected | Connecting | Connected

  /** One `session(_:peer:didChange:)` callback. */
  datatype Event<T> = Event(peer: T, state: SessionState)

  /** The roster invariant: no peer id occurs twice. */
  predicate NoDuplicates<T(==)>(s: seq<T>)
  {
    forall i, j :: 0 <= i < j < |s| ==> s[i] != s[j]
  }

  /** The set of ids a list holds. */
  ghost function Elements<T>(s: seq<T>): set<T>
  {
    set x | x in s
  }

  lemma ElementsCons<T>(a: T, t: seq<T>)
    ensures Elements([a] + t) == {a} + Elements(t)
  {
    assert forall y :: y in [a] + t <==> y == a || y in t;
  }

  /** `Array.index(of:)`: the first position holding `x`, if any. */
  function IndexOf<T(==)>(s: seq<T>, x: T): (r: Option<nat>)
    ensures r.None? <==> x !in s
    ensures r.Some? ==> r.value < |s| && s[r.value] == x
    ensures r.Some? ==> forall j :: 0 <= j < r.value ==> s[j] != x
  {
    if |s| == 0 then None
    else if s[0] == x then Some(0)
    else match IndexOf(s[1..], x)
      case None => None
      case Some(i) => Some(i + 1)
  }

  /** `Array.remove(at:)`: drop position `i`, closing the gap. */
  function RemoveAt<T>(s: seq<T>, i: nat): (r: seq<T>)
    requires i < |s|
    ensures |r| == |s| - 1
    ensures forall j :: 0 <= j < i ==> r[j] == s[j]
    ensures forall j :: i <= j < |r| ==> r[j] == s[j + 1]
  {
    s[..i] + s[i + 1..]
  }

  /**
   * Reference definition of "the roster without `x`": keep every other entry,
   * in its original order.
   */
  function Without<T(==)>(s: seq<T>, x: T): (r: seq<T>)
    ensures Elements(r) == Elements(s) - {x}
    ensures |r| <= |s|
  {
    if |s| == 0 then []
    else
      ElementsCons(s[0], s[1..]);
      var rest := Without(s[1..], x);
      ElementsCons(s[0], rest);
      if s[0] == x then rest else [s[0]] + rest
  }

  /** The roster after one state-change event (the specification of the handler). */
  function Apply<T(==)>(roster: seq<T>, peer: T, state: SessionState): (r: seq<T>)
    ensures state == Connected ==> peer in r
    ensures state == NotConnected ==> peer !in r
    ensures |r| <= |roster| + 1
  {
    match state
    case Connected => if peer in roster then roster else roster + [peer]
    case NotConnected => Without(roster, peer)
    case Connecting => roster
  }

  /** The roster after a whole sequence of events, starting from an empty one. */
  function Replay<T(==)>(events: seq<Event<T>>): seq<T>
  {
    if |events| == 0 then []
    else
      var last := events[|events| - 1];
      Apply(Replay(events[..|events| - 1]), last.peer, last.state)
  }

  /**
   * Independent view of "currently connected": the latest `.connected` or
   * `.notConnected` event about `p` is a `.connected` one.
   */
  predicate LinkedAfter<T(==)>(events: seq<Event<T>>, p: T)
  {
    if |events| == 0 then false
    else
      var last := events[|events| - 1];
      if last.peer == p && last.state == Connected then true
      else if last.peer == p && last.state == NotConnected then false
      else LinkedAfter(events[..|events| - 1], p)
  }

  /** The peers that some event names and that are currently connected. */
  ghost function ConnectedPeers<T>(events: seq<Event<T>>): set<T>
  {
    set i | 0 <= i < |events| && LinkedAfter(events, events[i].peer) :: events[i].peer
  }

  lemma {:induction false} WithoutAbsent<T>(s: seq<T>, x: T)
    requires x !in s
    ensures Without(s, x) == s
  {
    if |s| > 0 {
      WithoutAbsent(s[1..], x);
      assert [s[0]] + s[1..] == s;
    }
  }

  lemma {:induction false} WithoutKeepsDistinct<T>(s: seq<T>, x: T)
    requires NoDuplicates(s)
    ensures NoDuplicates(Without(s, x))
  {
    if |s| > 0 {
      assert NoDuplicates(s[1..]) by {
        forall i, j | 0 <= i < j < |s| - 1 ensures s[1..][i] != s[1..][j] {
          assert s[1..][i] == s[i + 1] && s[1..][j] == s[j + 1];
        }
      }
      WithoutKeepsDistinct(s[1..], x);
      if s[0] != x {
        var t := Without(s[1..], x);
        assert s[0] !in s[1..];
        assert s[0] !in Elements(t);
        forall i, j | 0 <= i < j < |[s[0]] + t| ensures ([s[0]] + t)[i] != ([s[0]] + t)[j] {
          if i > 0 {
            assert ([s[0]] + t)[i] == t[i - 1] && ([s[0]] + t)[j] == t[j - 1];
          } else {
            assert ([s[0]] + t)[j] == t[j - 1];
          }
        }
      }
    }
  }

  /**
   * On a roster without duplicates, removing the position where `x` sits
   * (what the handler does) is the reference removal `Without`.
   */
  lemma {:induction false} RemoveFirstIsWithout<T>(s: seq<T>, x: T, i: nat)
    requires NoDuplicates(s)
    requires i < |s| && s[i] == x
    ensures RemoveAt(s, i) == Without(s, x)
  {
    assert x !in s[i + 1..] by {
      forall k | i + 1 <= k < |s| ensures s[k] != x {
        assert s[i] != s[k];
      }
    }
    if i == 0 {
      assert s[1..] == s[i + 1..];
      WithoutAbsent(s[1..], x);
      assert RemoveAt(s, 0) == s[1..];
    } else {
      assert s[0] != x;
      assert NoDuplicates(s[1..]) by {
        forall a, b | 0 <= a < b < |s| - 1 ensures s[1..][a] != s[1..][b] {
          assert s[1..][a] == s[a + 1] && s[1..][b] == s[b + 1];
        }
      }
      RemoveFirstIsWithout(s[1..], x, i - 1);
      assert RemoveAt(s, i) == [s[0]] + RemoveAt(s[1..], i - 1);
    }
  }

  /** Every state-change event keeps the roster free of duplicates. */
  lemma ApplyKeepsDistinct<T>(roster: seq<T>, peer: T, state: SessionState)
    requires NoDuplicates(roster)
    ensures NoDuplicates(Apply(roster, peer, state))
  {
    if state == NotConnected {
      WithoutKeepsDistinct(roster, peer);
    }
  }

  /**
   * `.connected`: the peer is in the roster afterwards; if it was already
   * there nothing changes, otherwise it is added at the end and every earlier
   * entry keeps its position.
   */
  lemma ConnectedEvent<T>(roster: seq<T>, peer: T)
    ensures peer in Apply(roster, peer, Connected)
    ensures Apply(roster, peer, Connected)[..|roster|] == roster
    ensures |Apply(roster, peer, Connected)| == if peer in roster then |roster| else |roster| + 1
    ensures Elements(Apply(roster, peer, Connected)) == Elements(roster) + {peer}
  {
  }

  /** A repeated `.connected` event for the same peer changes nothing. */
  lemma ConnectedIdempotent<T>(roster: seq<T>, peer: T)
    ensures Apply(Apply(roster, peer, Connected), peer, Connected) == Apply(roster, peer, Connected)
  {
  }

  /**
   * `.notConnected`: the peer is absent afterwards, every other peer stays,
   * and an absent peer leaves the roster unchanged. On a roster without
   * duplicates the result is the roster with the peer's position dropped,
   * so the remaining peers keep their relative order.
   */
  lemma {:induction false} NotConnectedEvent<T>(roster: seq<T>, peer: T)
    ensures peer !in Apply(roster, peer, NotConnected)
    ensures Elements(Apply(roster, peer, NotConnected)) == Elements(roster) - {peer}
    ensures peer !in roster ==> Apply(roster, peer, NotConnected) == roster
    ensures NoDuplicates(roster) && peer in roster ==>
              Apply(roster, peer, NotConnected) == RemoveAt(roster, IndexOf(roster, peer).value)
  {
    if peer !in roster {
      WithoutAbsent(roster, peer);
    } else if NoDuplicates(roster) {
      RemoveFirstIsWithout(roster, peer, IndexOf(roster, peer).value);
    }
  }

  /** A repeated `.notConnected` event for the same peer changes nothing. */
  lemma NotConnectedIdempotent<T>(roster: seq<T>, peer: T)
    ensures Apply(Apply(roster, peer, NotConnected), peer, NotConnected) == Apply(roster, peer, NotConnected)
  {
    WithoutAbsent(Without(roster, peer), peer);
  }

  /** `.connecting` changes nothing. */
  lemma ConnectingEvent<T>(roster: seq<T>, peer: T)
    ensures Apply(roster, peer, Connecting) == roster
  {
  }

  /**
   * For every event sequence, the roster has no duplicates and holds exactly
   * the peers whose latest connect/disconnect event was a connect.
   */
  lemma {:induction false} ReplayTracksConnections<T>(events: seq<Event<T>>)
    ensures NoDuplicates(Replay(events))
    ensures forall p :: p in Replay(events) <==> LinkedAfter(events, p)
  {
    if |events| > 0 {
      var prefix := events[..|events| - 1];
      var last := events[|events| - 1];
      ReplayTracksConnections(prefix);
      ApplyKeepsDistinct(Replay(prefix), last.peer, last.state);
      forall p ensures p in Replay(events) <==> LinkedAfter(events, p) {
        assert p in Replay(events) <==> p in Elements(Replay(events));
        assert p in Replay(prefix) <==> p in Elements(Replay(prefix));
      }
    }
  }

  /** A peer counted as connected is named by some event. */
  lemma {:induction false} LinkedIsNamed<T>(events: seq<Event<T>>, p: T)
    requires LinkedAfter(events, p)
    ensures exists i :: 0 <= i < |events| && events[i].peer == p
  {
    var last := events[|events| - 1];
    if last.peer != p {
      var prefix := events[..|events| - 1];
      LinkedIsNamed(prefix, p);
      var i :| 0 <= i < |prefix| && prefix[i].peer == p;
      assert events[i] == prefix[i];
    }
  }

  /** A list without duplicates has as many entries as distinct elements. */
  lemma {:induction false} DistinctCardinality<T>(s: seq<T>)
    requires NoDuplicates(s)
    ensures |Elements(s)| == |s|
  {
    if |s| > 0 {
      assert NoDuplicates(s[1..]) by {
        forall a, b | 0 <= a < b < |s| - 1 ensures s[1..][a] != s[1..][b] {
          assert s[1..][a] == s[a + 1] && s[1..][b] == s[b + 1];
        }
      }
      DistinctCardinality(s[1..]);
      assert Elements(s) == {s[0]} + Elements(s[1..]) by {
        assert s == [s[0]] + s[1..];
      }
      assert s[0] !in Elements(s[1..]) by {
        forall k | 0 <= k < |s| - 1 ensures s[1..][k] != s[0] {
          assert s[1..][k] == s[k + 1];
        }
      }
    }
  }

  /**
   * For every event sequence, the roster's size is the number of peers
   * currently in the connected state.
   */
  lemma RosterSizeIsConnectedCount<T>(events: seq<Event<T>>)
    ensures |Replay(events)| == |ConnectedPeers(events)|
  {
    ReplayTracksConnections(events);
    DistinctCardinality(Replay(events));
    forall p | LinkedAfter(events, p) ensures p in ConnectedPeers(events) {
      LinkedIsNamed(events, p);
    }
    assert Elements(Replay(events)) == ConnectedPeers(events);
  }
}
