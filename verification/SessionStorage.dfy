/**
 The session store of `internal/services/session/storage.go`.  Whoever takes a session out of the store,
 by `Delete` or by `Shutdown`, becomes the one who closes its browser.
 */
module SessionStorage {

  datatype Protocol = Webdriver | Playwright

  datatype Key = Key(protocol: Protocol, id: string)

  /** The value of a store: one flat map for the nested maps of the source. */
  datatype Store<!S> = Store(stored: map<Key, S>, shutdown: bool)
  {
    function Add(k: Key, s: S): Store<S> {
      if shutdown then this else this.(stored := stored[k := s])
    }

    function Delete(k: Key): Store<S> {
      this.(stored := stored - {k})
    }

    function Shutdown(): Store<S> {
      Store(map[], true)
    }
  }

  class Session {
    const id: string
    const browser: nat

    constructor (id: string, browser: nat)
      ensures this.id == id && this.browser == browser
    {
      this.id, this.browser := id, browser;
    }
  }

  type Nested = map<Protocol, map<string, Session>>

  /** The nested maps of the source as one map. */
  ghost function Flat(m: Nested): map<Key, Session> {
    map p, id | p in m.Keys && id in m[p].Keys :: Key(p, id) := m[p][id]
  }

  lemma FlatAt(m: Nested, k: Key)
    ensures k in Flat(m) <==> k.protocol in m && k.id in m[k.protocol]
    ensures k in Flat(m) ==> Flat(m)[k] == m[k.protocol][k.id]
  {
    assert k == Key(k.protocol, k.id);
  }

  lemma FlatPut(m: Nested, p: Protocol, ps: map<string, Session>, id: string, s: Session)
    requires ps == if p in m then m[p] else map[]
    ensures Flat(m[p := ps[id := s]]) == Flat(m)[Key(p, id) := s]
  {
    var m' := m[p := ps[id := s]];
    forall k: Key
      ensures k in Flat(m') <==> k in Flat(m)[Key(p, id) := s]
      ensures k in Flat(m') ==> Flat(m')[k] == Flat(m)[Key(p, id) := s][k]
    {
      FlatAt(m, k);
      FlatAt(m', k);
    }
  }

  lemma FlatDelete(m: Nested, p: Protocol, id: string)
    requires p in m
    ensures Flat(m[p := m[p] - {id}]) == Flat(m) - {Key(p, id)}
  {
    var m' := m[p := m[p] - {id}];
    forall k: Key
      ensures k in Flat(m') <==> k in Flat(m) - {Key(p, id)}
      ensures k in Flat(m') ==> Flat(m')[k] == Flat(m)[k]
    {
      FlatAt(m, k);
      FlatAt(m', k);
    }
  }

  lemma FlatDrop(m: Nested, p: Protocol)
    requires p in m && m[p].Keys == {}
    ensures Flat(m - {p}) == Flat(m)
  {
    forall k: Key
      ensures k in Flat(m - {p}) <==> k in Flat(m)
      ensures k in Flat(m) ==> Flat(m - {p})[k] == Flat(m)[k]
    {
      FlatAt(m, k);
      FlatAt(m - {p}, k);
    }
  }

  /** The closers started so far: one for each key taken out. */
  ghost predicate Drained(all: map<Key, Session>, closing: seq<Session>, keys: seq<Key>) {
    && |keys| == |closing|
    && (forall i, j :: 0 <= i < j < |keys| ==> keys[i] != keys[j])
    && (forall i :: 0 <= i < |keys| ==> keys[i] in all && closing[i] == all[keys[i]])
  }

  /** What is closing and what is still stored are the sessions of `all`. */
  ghost predicate Drains(all: map<Key, Session>, m: Nested, closing: seq<Session>, keys: seq<Key>) {
    && Drained(all, closing, keys)
    && (forall k :: k in Flat(m) <==> k in all && k !in keys)
    && (forall k :: k in Flat(m) ==> Flat(m)[k] == all[k])
  }

  lemma TakeOne(all: map<Key, Session>, m: Nested, closing: seq<Session>, keys: seq<Key>, p: Protocol, id: string)
    requires Drains(all, m, closing, keys) && p in m && id in m[p]
    ensures Drains(all, m[p := m[p] - {id}], closing + [m[p][id]], keys + [Key(p, id)])
  {
    FlatAt(m, Key(p, id));
    FlatDelete(m, p, id);
  }

  /** Each stored session of the protocol, under its id, once. */
  ghost predicate Lists(stored: map<Key, Session>, protocol: Protocol, ids: seq<string>, res: seq<Session>) {
    && |ids| == |res| && (forall i, j :: 0 <= i < j < |ids| ==> ids[i] != ids[j])
    && (forall id :: id in ids <==> Key(protocol, id) in stored)
    && (forall i :: 0 <= i < |res| ==> res[i] == stored[Key(protocol, ids[i])])
  }

  lemma {:induction false} ListedOnce(ids: seq<string>, all: set<string>)
    requires forall i, j :: 0 <= i < j < |ids| ==> ids[i] != ids[j]
    requires forall id :: id in all <==> id in ids
    ensures |ids| == |all|
  {
    if ids == [] {
      assert all == {};
    } else {
      assert forall id :: id in all - {ids[0]} <==> id in ids[1..];
      ListedOnce(ids[1..], all - {ids[0]});
    }
  }

  class LocalSessionStorage {
    var sessions: map<Protocol, map<string, Session>>
    var shutdown: bool

    ghost function Value(): Store<Session>
      reads this
    {
      Store(Flat(sessions), shutdown)
    }

    constructor ()
      ensures Value() == Store(map[], false)
    {
      sessions, shutdown := map[], false;
    }

    method Add(protocol: Protocol, sess: Session) returns (ok: bool)
      modifies this
      ensures ok <==> !old(shutdown)
      ensures Value() == old(Value()).Add(Key(protocol, sess.id), sess)
    {
      if shutdown {
        return false;
      }
      var ps: map<string, Session> := if protocol in sessions then sessions[protocol] else map[];
      FlatPut(sessions, protocol, ps, sess.id, sess);
      sessions := sessions[protocol := ps[sess.id := sess]];
      return true;
    }

    method Get(protocol: Protocol, id: string) returns (sess: Session?, ok: bool)
      ensures ok <==> Key(protocol, id) in Value().stored
      ensures ok ==> sess == Value().stored[Key(protocol, id)]
    {
      FlatAt(sessions, Key(protocol, id));
      if protocol !in sessions || id !in sessions[protocol] {
        return null, false;
      }
      return sessions[protocol][id], true;
    }

    /** The ids of a protocol. */
    ghost function Ids(protocol: Protocol): set<string>
      reads this
    {
      set k | k in Value().stored && k.protocol == protocol :: k.id
    }

    /** Every stored session of a protocol, once for each id. */
    method List(protocol: Protocol) returns (res: seq<Session>)
      ensures |res| == |Ids(protocol)|
      ensures exists ids :: Lists(Value().stored, protocol, ids, res)
    {
      res := [];
      ghost var ids := [];
      forall id {
        FlatAt(sessions, Key(protocol, id));
      }
      if protocol !in sessions {
        assert Ids(protocol) == {} && Lists(Value().stored, protocol, ids, res);
        return;
      }
      var todo := sessions[protocol];
      while todo.Keys != {}
        invariant todo.Keys <= sessions[protocol].Keys
        invariant forall id :: id in todo ==> todo[id] == sessions[protocol][id]
        invariant |ids| == |res| && (forall i, j :: 0 <= i < j < |ids| ==> ids[i] != ids[j])
        invariant forall id :: id in ids <==> id in sessions[protocol] && id !in todo
        invariant forall i :: 0 <= i < |res| ==> res[i] == sessions[protocol][ids[i]]
        decreases todo.Keys
      {
        var id :| id in todo.Keys;
        res := res + [todo[id]];
        ids := ids + [id];
        todo := todo - {id};
      }
      assert Lists(Value().stored, protocol, ids, res);
      forall id ensures id in Ids(protocol) <==> id in ids {
        assert id in ids ==> Key(protocol, id) in Value().stored;
      }
      ListedOnce(ids, Ids(protocol));
    }

    method Delete(protocol: Protocol, id: string) returns (ok: bool)
      modifies this
      ensures ok <==> Key(protocol, id) in old(Value()).stored
      ensures Value() == old(Value()).Delete(Key(protocol, id))
    {
      FlatAt(sessions, Key(protocol, id));
      if protocol !in sessions || id !in sessions[protocol] {
        return false;
      }
      FlatDelete(sessions, protocol, id);
      sessions := sessions[protocol := sessions[protocol] - {id}];
      return true;
    }

    method IsShutdown() returns (b: bool)
      ensures b == Value().shutdown
    {
      b := shutdown;
    }

    /** Empties the store and hands every stored session to exactly one closer. */
    method Shutdown() returns (closing: seq<Session>, ghost keys: seq<Key>)
      modifies this
      ensures Value() == old(Value()).Shutdown()
      ensures Drained(old(Value()).stored, closing, keys)
      ensures forall k :: k in old(Value()).stored ==> k in keys
    {
      shutdown := true;
      closing, keys := [], [];
      ghost var all := Flat(sessions);
      while sessions.Keys != {}
        invariant Drains(all, sessions, closing, keys)
        invariant shutdown
        decreases sessions.Keys
      {
        var p :| p in sessions.Keys;
        closing, keys := DrainProtocol(p, all, closing, keys);
        FlatDrop(sessions, p);
        sessions := sessions - {p};
      }
      forall k ensures k !in Flat(sessions) {
        FlatAt(sessions, k);
      }
    }

    /** The inner loop of `Shutdown`. */
    method DrainProtocol(p: Protocol, ghost all: map<Key, Session>, closing0: seq<Session>, ghost keys0: seq<Key>)
      returns (closing: seq<Session>, ghost keys: seq<Key>)
      requires p in sessions && Drains(all, sessions, closing0, keys0)
      modifies this`sessions
      ensures sessions.Keys == old(sessions.Keys) && sessions[p].Keys == {}
      ensures Drains(all, sessions, closing, keys)
    {
      closing, keys := closing0, keys0;
      while sessions[p].Keys != {}
        invariant p in sessions && sessions.Keys == old(sessions.Keys)
        invariant Drains(all, sessions, closing, keys)
        decreases sessions[p].Keys
      {
        var id :| id in sessions[p].Keys;
        TakeOne(all, sessions, closing, keys, p, id);
        closing := closing + [sessions[p][id]];
        keys := keys + [Key(p, id)];
        sessions := sessions[p := sessions[p] - {id}];
      }
    }
  }
}
