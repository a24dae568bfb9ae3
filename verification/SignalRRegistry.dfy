/** Tokens, connections and open streams of one SignalR hub (internal/server/signalr_registry.go). */
module SignalRRegistry {
  import opened Json
  import opened Decimal

  datatype Stream = Stream(invocationID: string, channelID: string, connID: string)

  /** A connection with the metadata captured at its upgrade. */
  datatype Connection = Connection(
    id: string, path: string, query: map<string, seq<string>>, headers: map<string, seq<string>>,
    streams: map<string, Stream>)

  /** What is written to the client of connection `connID`. */
  datatype Write =
    | StreamItem(connID: string, invocationID: string, payload: string)
    | Invocation(connID: string, serverID: string, target: string, payload: string)

  datatype StreamEntry = StreamEntry(connectionID: string, path: string,
    query: map<string, seq<string>>, headers: map<string, seq<string>>, stream: Stream)

  type Connections = map<string, Connection>

  predicate OpenOn(c: Connection, invocationID: string, channelID: string) {
    invocationID in c.streams && c.streams[invocationID].channelID == channelID
  }

  /** One stream item per open stream of the channel, over the given connections. */
  ghost function Items(conns: Connections, ids: set<string>, channelID: string, payload: string): set<Write> {
    set id, inv | id in ids && id in conns && inv in conns[id].streams && OpenOn(conns[id], inv, channelID) ::
        StreamItem(id, inv, payload)
  }

  /** One server invocation for each of the given connections. */
  ghost predicate InvokesEach(writes: seq<Write>, ids: set<string>, target: string, payload: string) {
    && (forall w :: w in writes ==> w.Invocation? && w.connID in ids && w.target == target && w.payload == payload)
    && (forall id :: id in ids ==> exists w :: w in writes && w.connID == id)
    && forall i, j :: 0 <= i < j < |writes| ==> writes[i].connID != writes[j].connID
  }

  ghost function Elements(writes: seq<Write>): set<Write> {
    set w | w in writes
  }

  function ServerIDs(writes: seq<Write>): seq<string> {
    if writes == [] then []
    else
      var last := writes[|writes| - 1];
      ServerIDs(writes[..|writes| - 1]) + if last.Invocation? then [last.serverID] else []
  }

  lemma {:induction false} NoServerIDs(writes: seq<Write>)
    requires forall w :: w in writes ==> w.StreamItem?
    ensures ServerIDs(writes) == []
  {
    if writes != [] {
      assert writes[|writes| - 1] in writes;
      NoServerIDs(writes[..|writes| - 1]);
    }
  }

  lemma {:induction false} ServerIDsAppend(a: seq<Write>, b: seq<Write>)
    ensures ServerIDs(a + b) == ServerIDs(a) + ServerIDs(b)
  {
    if b == [] {
      assert a + b == a;
    } else {
      ServerIDsAppend(a, b[..|b| - 1]);
      assert (a + b)[..|a + b| - 1] == a + b[..|b| - 1];
    }
  }

  class SignalRConnRegistry {
    var tokens: map<string, string>
    var conns: Connections
    var idSeq: nat

    /** Everything written to clients through this registry, in order. */
    var log: seq<Write>

    /** Every connection id and token ever handed out, and the tokens consumed successfully, in order. */
    ghost var connIDs: seq<string>
    ghost var issued: seq<string>
    ghost var consumed: seq<string>

    ghost predicate IdsAreNew()
      reads this
    {
      && Distinct(connIDs) && NumberedUpTo(connIDs, idSeq)
      && |issued| == |connIDs| && (forall i :: 0 <= i < |issued| ==> issued[i] == connIDs[i] + "-t")
      && Distinct(ServerIDs(log)) && NumberedUpTo(ServerIDs(log), idSeq)
    }

    ghost predicate TokensAreSingleUse()
      reads this
    {
      && Distinct(consumed)
      && (forall t :: t in tokens ==> t in issued && t == tokens[t] + "-t" && t !in consumed)
      && forall t :: t in consumed ==> t in issued
    }

    ghost predicate Valid()
      reads this
    {
      && IdsAreNew() && TokensAreSingleUse()
      && forall id :: id in conns ==> WellFormed(id, conns[id])
    }

    constructor ()
      ensures Valid() && conns == map[] && log == [] && connIDs == [] && consumed == []
    {
      tokens, conns, idSeq, log := map[], map[], 0, [];
      connIDs, issued, consumed := [], [], [];
    }

    method IssueToken() returns (token: string, connID: string)
      requires Valid()
      modifies this
      ensures Valid() && conns == old(conns) && log == old(log) && consumed == old(consumed)
      ensures connIDs == old(connIDs) + [connID] && issued == old(issued) + [token]
      ensures tokens == old(tokens)[token := connID]
      ensures idSeq == old(idSeq) + 1 && connID == "signalr-" + Itoa(idSeq) && token == connID + "-t"
    {
      hide Distinct, NumberedUpTo, Numbered, Itoa;
      connID := "signalr-" + Itoa(idSeq + 1);
      token := connID + "-t";
      NewConnID(connIDs, ServerIDs(log), idSeq, "signalr", connID);
      TokenIsNew(connIDs, issued, connID);
      idSeq := idSeq + 1;
      connIDs, issued := connIDs + [connID], issued + [token];
      tokens := tokens[token := connID];
    }

    method ConsumeToken(token: string) returns (connID: string, ok: bool)
      requires Valid()
      modifies this
      ensures Valid() && conns == old(conns) && log == old(log) && connIDs == old(connIDs) && issued == old(issued)
      ensures ok <==> token in old(tokens)
      ensures ok ==> connID == old(tokens)[token] && token == connID + "-t"
      ensures consumed == old(consumed) + if ok then [token] else []
      ensures tokens == old(tokens) - {token}
    {
      if token !in tokens {
        assert tokens - {token} == tokens;
        return "", false;
      }
      connID := tokens[token];
      tokens := tokens - {token};
      consumed := consumed + [token];
      return connID, true;
    }

    method FreshToken() returns (token: string, connID: string)
      requires Valid()
      modifies this
      ensures Valid() && conns == old(conns) && log == old(log) && consumed == old(consumed) && tokens == old(tokens)
      ensures connIDs == old(connIDs) + [connID] && issued == old(issued) + [token]
      ensures idSeq == old(idSeq) + 1 && connID == "signalr-fresh-" + Itoa(idSeq) && token == connID + "-t"
    {
      hide Distinct, NumberedUpTo, Numbered, Itoa;
      connID := "signalr-fresh-" + Itoa(idSeq + 1);
      token := connID + "-t";
      NewConnID(connIDs, ServerIDs(log), idSeq, "signalr-fresh", connID);
      idSeq := idSeq + 1;
      connIDs, issued := connIDs + [connID], issued + [token];
    }

    method Register(c: Connection)
      requires Valid() && WellFormed(c.id, c)
      modifies this`conns
      ensures Valid() && conns == old(conns)[c.id := c]
    {
      conns := conns[c.id := c];
    }

    method Unregister(id: string)
      requires Valid()
      modifies this`conns
      ensures Valid() && conns == old(conns) - {id}
    {
      conns := conns - {id};
    }

    /** The registration of a stream that an accepted StreamInvocation leaves open. */
    method OpenStream(connID: string, invocationID: string, channelID: string)
      requires Valid()
      modifies this`conns
      ensures Valid() && conns.Keys == old(conns.Keys)
      ensures forall id :: id in conns && id != connID ==> conns[id] == old(conns)[id]
      ensures connID in conns ==>
                var before := old(conns)[connID];
                var stream := Stream(invocationID, channelID, connID);
                conns[connID] == before.(streams := before.streams[invocationID := stream])
    {
      if connID in conns {
        var c := conns[connID];
        conns := conns[connID := c.(streams := c.streams[invocationID := Stream(invocationID, channelID, connID)])];
      }
    }

    method UnregisterStream(st: Stream)
      requires Valid()
      modifies this`conns
      ensures Valid() && conns.Keys == old(conns.Keys)
      ensures forall id :: id in conns && id != st.connID ==> conns[id] == old(conns)[id]
      ensures st.connID in conns ==>
                var before := old(conns)[st.connID];
                conns[st.connID] == before.(streams := before.streams - {st.invocationID})
    {
      if st.connID in conns {
        var c := conns[st.connID];
        conns := conns[st.connID := c.(streams := c.streams - {st.invocationID})];
      }
    }

    /** One entry per open stream of the channel, in no particular order. */
    method StreamEntriesForChannel(channelID: string) returns (out: seq<StreamEntry>)
      requires Valid()
      ensures Distinct(out)
      ensures forall e :: e in out <==> IsEntry(e, conns, channelID)
    {
      out := [];
      var todo := conns.Keys;
      while todo != {}
        invariant todo <= conns.Keys
        invariant Distinct(out)
        invariant forall e :: e in out <==> IsEntry(e, conns, channelID) && e.connectionID !in todo
        decreases |todo|
      {
        var id :| id in todo;
        var c := conns[id];
        var left := c.streams.Keys;
        while left != {}
          invariant left <= c.streams.Keys
          invariant Distinct(out)
          invariant forall e :: e in out <==>
                      && IsEntry(e, conns, channelID)
                      && (e.connectionID !in todo || (e.connectionID == id && e.stream.invocationID !in left))
          decreases |left|
        {
          var inv :| inv in left;
          if c.streams[inv].channelID == channelID {
            out := out + [StreamEntry(c.id, c.path, c.query, c.headers, c.streams[inv])];
          }
          left := left - {inv};
        }
        todo := todo - {id};
      }
    }

    method PushToStreams(channelID: string, payload: string, target: string) returns (ghost sent: seq<Write>)
      requires Valid()
      modifies this`log, this`idSeq
      ensures Valid() && log == old(log) + sent
      ensures Delivers(sent, conns, conns.Keys, channelID, payload, target)
    {
      var deliveries := BuildStreamDeliveries(channelID, payload, target, None);
      log := log + deliveries;
      sent := deliveries;
    }

    method PushToConnection(connectionID: string, channelID: string, payload: string, target: string)
      returns (ghost sent: seq<Write>)
      requires Valid()
      modifies this`log, this`idSeq
      ensures Valid() && log == old(log) + sent
      ensures if connectionID in conns then Delivers(sent, conns, {connectionID}, channelID, payload, target)
              else sent == []
    {
      if connectionID !in conns {
        assert log + [] == log;
        return [];
      }
      var deliveries := BuildStreamDeliveries(channelID, payload, target, Some(connectionID));
      log := log + deliveries;
      sent := deliveries;
    }

    /** The writes for the open streams of one connection or of all; server invocations when there is no such stream. */
    method BuildStreamDeliveries(channelID: string, payload: string, target: string, only: Option<string>)
      returns (out: seq<Write>)
      requires Valid() && (only.Some? ==> only.value in conns)
      modifies this`idSeq
      ensures NumberedUpTo(connIDs, idSeq)
      ensures Distinct(ServerIDs(log + out)) && NumberedUpTo(ServerIDs(log + out), idSeq)
      ensures Delivers(out, conns, if only.Some? then {only.value} else conns.Keys, channelID, payload, target)
    {
      hide Distinct, NumberedUpTo, Numbered, ServerIDs, Items, InvokesEach;
      var ids := if only.Some? then {only.value} else conns.Keys;
      out := WriteStreamItems(ids, channelID, payload);
      if out == [] {
        NoItems(out, conns, ids, channelID, payload);
        out := EmitInvocations(ids, target, payload);
      } else {
        SomeItems(out, conns, ids, channelID, payload);
        ItemsCarryNoServerIDs(log, out);
      }
    }

    method WriteStreamItems(ids: set<string>, channelID: string, payload: string) returns (out: seq<Write>)
      requires Valid() && ids <= conns.Keys
      ensures Distinct(out) && forall w :: w in out <==> w in Items(conns, ids, channelID, payload)
    {
      out := [];
      var todo := ids;
      while todo != {}
        invariant todo <= ids
        invariant Distinct(out)
        invariant forall w :: w in out <==> w in Items(conns, ids, channelID, payload) && w.connID !in todo
        decreases |todo|
      {
        var id :| id in todo;
        var streams := conns[id].streams;
        var left := streams.Keys;
        while left != {}
          invariant left <= streams.Keys
          invariant Distinct(out)
          invariant forall w :: w in out <==>
                      && w in Items(conns, ids, channelID, payload)
                      && (w.connID !in todo || (w.connID == id && w.invocationID !in left))
          decreases |left|
        {
          var inv :| inv in left;
          if streams[inv].channelID == channelID {
            out := out + [StreamItem(id, inv, payload)];
          }
          left := left - {inv};
        }
        todo := todo - {id};
      }
    }

    /** A server invocation on one connection, with the next number in its id; `written` is all that went before. */
    method EmitInvocation(id: string, target: string, payload: string, ghost written: seq<Write>) returns (write: Write)
      requires NumberedUpTo(connIDs, idSeq)
      requires Distinct(ServerIDs(written)) && NumberedUpTo(ServerIDs(written), idSeq)
      modifies this`idSeq
      ensures write == Invocation(id, "srv-" + target + "-" + Itoa(idSeq), target, payload) && idSeq == old(idSeq) + 1
      ensures NumberedUpTo(connIDs, idSeq)
      ensures Distinct(ServerIDs(written + [write])) && NumberedUpTo(ServerIDs(written + [write]), idSeq)
    {
      hide Distinct, NumberedUpTo, Numbered, ServerIDs, Itoa;
      NewServerID(written, connIDs, idSeq, "srv-" + target, id, payload, target);
      idSeq := idSeq + 1;
      write := Invocation(id, "srv-" + target + "-" + Itoa(idSeq), target, payload);
    }

    method EmitInvocations(ids: set<string>, target: string, payload: string) returns (out: seq<Write>)
      requires NumberedUpTo(connIDs, idSeq)
      requires Distinct(ServerIDs(log)) && NumberedUpTo(ServerIDs(log), idSeq)
      modifies this`idSeq
      ensures NumberedUpTo(connIDs, idSeq)
      ensures Distinct(ServerIDs(log + out)) && NumberedUpTo(ServerIDs(log + out), idSeq)
      ensures InvokesEach(out, ids, target, payload)
    {
      hide Distinct, NumberedUpTo, ServerIDs, InvokesEach;
      out := [];
      NothingInvoked(target, payload);
      ghost var done: set<string> := {};
      assert log + [] == log;
      var todo := ids;
      while todo != {}
        invariant done + todo == ids && done !! todo
        invariant NumberedUpTo(connIDs, idSeq)
        invariant Distinct(ServerIDs(log + out)) && NumberedUpTo(ServerIDs(log + out), idSeq)
        invariant InvokesEach(out, done, target, payload)
        decreases |todo|
      {
        var id :| id in todo;
        var write := EmitInvocation(id, target, payload, log + out);
        OneMoreInvoked(out, done, write, target, payload);
        assert log + out + [write] == log + (out + [write]);
        out := out + [write];
        todo := todo - {id};
        done := done + {id};
      }
      assert done == ids;
    }
  }

  lemma NothingInvoked(target: string, payload: string)
    ensures InvokesEach([], {}, target, payload)
  {
  }

  ghost predicate WellFormed(id: string, c: Connection) {
    c.id == id && "signalr-" <= id
    && forall inv :: inv in c.streams ==> c.streams[inv].invocationID == inv && c.streams[inv].connID == id
  }

  ghost predicate IsEntry(e: StreamEntry, conns: Connections, channelID: string) {
    && e.connectionID in conns
    && var c := conns[e.connectionID];
       && e.stream.invocationID in c.streams && c.streams[e.stream.invocationID] == e.stream
       && e.stream.channelID == channelID
       && e.path == c.path && e.query == c.query && e.headers == c.headers
  }

  /** Every open stream of the channel gets the payload once; if there is none, every connection gets one invocation. */
  ghost predicate Delivers(sent: seq<Write>, conns: Connections, ids: set<string>, channelID: string,
                           payload: string, target: string) {
    var items := Items(conns, ids, channelID, payload);
    if items != {} then Distinct(sent) && Elements(sent) == items else InvokesEach(sent, ids, target, payload)
  }

  lemma NoItems(out: seq<Write>, conns: Connections, ids: set<string>, channelID: string, payload: string)
    requires out == [] && forall w :: w in out <==> w in Items(conns, ids, channelID, payload)
    ensures Items(conns, ids, channelID, payload) == {}
  {
  }

  lemma SomeItems(out: seq<Write>, conns: Connections, ids: set<string>, channelID: string, payload: string)
    requires out != [] && forall w :: w in out <==> w in Items(conns, ids, channelID, payload)
    ensures Items(conns, ids, channelID, payload) != {} && Elements(out) == Items(conns, ids, channelID, payload)
    ensures forall w :: w in out ==> w.StreamItem?
  {
    assert out[0] in Items(conns, ids, channelID, payload);
  }

  lemma ItemsCarryNoServerIDs(log: seq<Write>, out: seq<Write>)
    requires forall w :: w in out ==> w.StreamItem?
    ensures ServerIDs(log + out) == ServerIDs(log)
  {
    ServerIDsAppend(log, out);
    NoServerIDs(out);
  }

  lemma NewConnID(connIDs: seq<string>, serverIDs: seq<string>, top: nat, prefix: string, id: string)
    requires id == prefix + "-" + Itoa(top + 1)
    requires Distinct(connIDs) && NumberedUpTo(connIDs, top) && NumberedUpTo(serverIDs, top)
    ensures Distinct(connIDs + [id]) && NumberedUpTo(connIDs + [id], top + 1) && NumberedUpTo(serverIDs, top + 1)
    ensures id !in connIDs
  {
    NextIsNew(connIDs, top, id);
    LargerBound(serverIDs, top);
  }

  lemma TokenIsNew(connIDs: seq<string>, issued: seq<string>, connID: string)
    requires |issued| == |connIDs| && forall i :: 0 <= i < |issued| ==> issued[i] == connIDs[i] + "-t"
    requires connID !in connIDs
    ensures connID + "-t" !in issued
  {
    forall i | 0 <= i < |issued|
      ensures issued[i] != connID + "-t"
    {
      assert issued[i][..|issued[i]| - 2] == connIDs[i];
      assert (connID + "-t")[..|connID + "-t"| - 2] == connID;
    }
  }

  /** Distinct connection ids make distinct tokens. */
  lemma IssuedTokensDiffer(connIDs: seq<string>, issued: seq<string>)
    requires |issued| == |connIDs| && forall i :: 0 <= i < |issued| ==> issued[i] == connIDs[i] + "-t"
    requires Distinct(connIDs)
    ensures Distinct(issued)
  {
    forall i, j | 0 <= i < j < |issued|
      ensures issued[i] != issued[j]
    {
      assert issued[i][..|issued[i]| - 2] == connIDs[i];
      assert issued[j][..|issued[j]| - 2] == connIDs[j];
    }
  }

  lemma LargerBound(ids: seq<string>, top: nat)
    requires NumberedUpTo(ids, top)
    ensures NumberedUpTo(ids, top + 1)
  {
    forall id | id in ids
      ensures exists n: nat :: n <= top + 1 && Numbered(id, n)
    {
      var n: nat :| n <= top && Numbered(id, n);
    }
  }

  lemma NewServerID(sofar: seq<Write>, connIDs: seq<string>, top: nat, prefix: string, connID: string,
                    payload: string, target: string)
    requires Distinct(ServerIDs(sofar)) && NumberedUpTo(ServerIDs(sofar), top) && NumberedUpTo(connIDs, top)
    ensures var longer := sofar + [Invocation(connID, prefix + "-" + Itoa(top + 1), target, payload)];
            Distinct(ServerIDs(longer)) && NumberedUpTo(ServerIDs(longer), top + 1)
    ensures NumberedUpTo(connIDs, top + 1)
  {
    var id := prefix + "-" + Itoa(top + 1);
    var w := Invocation(connID, id, target, payload);
    assert (sofar + [w])[..|sofar|] == sofar;
    NextIsNew(ServerIDs(sofar), top, id);
    LargerBound(connIDs, top);
  }

  lemma OneMoreInvoked(out: seq<Write>, ids: set<string>, w: Write, target: string, payload: string)
    requires InvokesEach(out, ids, target, payload) && w.Invocation? && w.connID !in ids
    requires w.target == target && w.payload == payload
    ensures InvokesEach(out + [w], ids + {w.connID}, target, payload)
  {
    assert w in out + [w];
    forall i | i in ids
      ensures exists v :: v in out + [w] && v.connID == i
    {
      var v :| v in out && v.connID == i;
      assert v in out + [w];
    }
  }
}
