/** Raw WebSocket consumers, indexed by id and by channel (internal/server/ws_adapter.go). */
module WsRegistry {
  import opened Json
  import opened Decimal

  datatype WsConnection = WsConnection(id: string, channel: string, query: map<string, seq<string>>,
      headers: map<string, seq<string>>)

  datatype WsWrite = WsWrite(connID: string, payload: string)

  ghost function OnChannel(byID: map<string, WsConnection>, channel: string): set<string> {
    set id | id in byID && byID[id].channel == channel
  }

  /** Each of the given connections gets the payload once. */
  ghost predicate Reached(writes: seq<WsWrite>, ids: set<string>, payload: string) {
    Distinct(writes) && forall w :: w in writes <==> w.connID in ids && w.payload == payload
  }

  type ByChannel = map<string, map<string, WsConnection>>

  /** Both indexes hold the same connections, and no channel is kept without one. */
  ghost predicate IndexesAgree(byID: map<string, WsConnection>, byChan: ByChannel) {
    && (forall id :: id in byID ==> byID[id].id == id && byID[id].channel in byChan && id in byChan[byID[id].channel])
    && (forall ch, id :: ch in byChan && id in byChan[ch] ==>
        id in byID && byID[id] == byChan[ch][id] && byID[id].channel == ch)
    && forall ch :: ch in byChan ==> byChan[ch] != map[]
  }

  function Filed(byChan: ByChannel, c: WsConnection): ByChannel {
    var onChannel := if c.channel in byChan then byChan[c.channel] else map[];
    byChan[c.channel := onChannel[c.id := c]]
  }

  /** Both indexes still agree exactly when the id is new or stays on its channel. */
  lemma AgreeAfterRegister(byID: map<string, WsConnection>, byChan: ByChannel, c: WsConnection)
    requires IndexesAgree(byID, byChan)
    ensures IndexesAgree(byID[c.id := c], Filed(byChan, c)) <==> c.id !in byID || byID[c.id].channel == c.channel
  {
    hide IndexesAgree, Filed;
    if c.id in byID && byID[c.id].channel != c.channel {
      StaleEntry(byID, byChan, c);
    } else {
      FiledProperly(byID, byChan, c);
    }
  }

  lemma StaleEntry(byID: map<string, WsConnection>, byChan: ByChannel, c: WsConnection)
    requires IndexesAgree(byID, byChan) && c.id in byID && byID[c.id].channel != c.channel
    ensures !IndexesAgree(byID[c.id := c], Filed(byChan, c))
  {
    var stale, byID', byChan' := byID[c.id].channel, byID[c.id := c], Filed(byChan, c);
    assert stale in byChan' && c.id in byChan'[stale] && byID'[c.id] == c;
  }

  lemma FiledProperly(byID: map<string, WsConnection>, byChan: ByChannel, c: WsConnection)
    requires IndexesAgree(byID, byChan) && (c.id !in byID || byID[c.id].channel == c.channel)
    ensures IndexesAgree(byID[c.id := c], Filed(byChan, c))
  {
    assert c.id in Filed(byChan, c)[c.channel];
  }

  lemma AgreeAfterUnregister(byID: map<string, WsConnection>, byChan: ByChannel, id: string)
    requires IndexesAgree(byID, byChan) && id in byID
    ensures var ch := byID[id].channel;
            var rest := byChan[ch] - {id};
            IndexesAgree(byID - {id}, if rest == map[] then byChan - {ch} else byChan[ch := rest])
  {
    var ch := byID[id].channel;
    var rest := byChan[ch] - {id};
    var byID', byChan' := byID - {id}, if rest == map[] then byChan - {ch} else byChan[ch := rest];
    forall other | other in byID'
      ensures byID'[other].channel in byChan' && other in byChan'[byID'[other].channel]
    {
      if byID[other].channel == ch {
        assert other in rest;
      }
    }
    forall c, other | c in byChan' && other in byChan'[c]
      ensures other in byID' && byID'[other] == byChan'[c][other] && byID'[other].channel == c
    {
      assert c in byChan && other in byChan[c];
    }
  }

  lemma ChannelEntries(byID: map<string, WsConnection>, byChan: ByChannel, channel: string)
    requires IndexesAgree(byID, byChan)
    ensures var conns := if channel in byChan then byChan[channel] else map[];
            && (forall id :: id in conns ==> conns[id].id == id)
            && (forall id :: id in conns <==> id in byID && byID[id].channel == channel)
            && (forall id :: id in conns ==> conns[id] == byID[id])
  {
    if channel in byChan {
      var conns := byChan[channel];
      forall id | id in conns
        ensures id in byID && conns[id] == byID[id] && byID[id].id == id && byID[id].channel == channel
      {
        assert id in byChan[channel];
      }
    }
  }

  class ConnectionRegistry {
    var byID: map<string, WsConnection>
    var byChan: ByChannel
    var autoID: nat

    /** Everything broadcast or pushed to consumers, in order. */
    var log: seq<WsWrite>

    ghost var connIDs: seq<string>

    ghost predicate Valid()
      reads this
    {
      && IndexesAgree(byID, byChan)
      && Distinct(connIDs) && NumberedUpTo(connIDs, autoID)
      && forall id :: id in byID ==> id in connIDs && "conn-" <= id
    }

    constructor ()
      ensures Valid() && byID == map[] && log == [] && connIDs == []
    {
      byID, byChan, autoID, log, connIDs := map[], map[], 0, [], [];
    }

    /**
     * The upgrade handler passes no id and gets a new one. An id of the caller's own is taken as it is; one that is
     * registered on another channel leaves a stale entry there.
     */
    method Register(channel: string, id: string, query: map<string, seq<string>>, headers: map<string, seq<string>>)
      returns (registered: string)
      requires Valid()
      modifies this
      ensures log == old(log)
      ensures byID == old(byID)[registered := WsConnection(registered, channel, query, headers)]
      ensures IndexesAgree(byID, byChan) <==> registered !in old(byID) || old(byID)[registered].channel == channel
      ensures if id == "" then Valid() && registered !in old(connIDs) && connIDs == old(connIDs) + [registered]
              else registered == id && connIDs == old(connIDs)
      ensures id == "" ==> autoID == old(autoID) + 1 && registered == "conn-" + Itoa(autoID)
    {
      hide Distinct, NumberedUpTo, Numbered, Itoa, IndexesAgree;
      registered := id;
      if id == "" {
        autoID := autoID + 1;
        registered := "conn-" + Itoa(autoID);
        NextConn(connIDs, old(autoID), registered);
        connIDs := connIDs + [registered];
      }
      var c := WsConnection(registered, channel, query, headers);
      AgreeAfterRegister(byID, byChan, c);
      byID := byID[registered := c];
      var onChannel := if channel in byChan then byChan[channel] else map[];
      byChan := byChan[channel := onChannel[registered := c]];
    }

    method Unregister(id: string)
      requires Valid()
      modifies this
      ensures Valid() && log == old(log) && connIDs == old(connIDs)
      ensures byID == old(byID) - {id}
    {
      if id !in byID {
        assert byID - {id} == byID;
        return;
      }
      AgreeAfterUnregister(byID, byChan, id);
      hide IndexesAgree, Distinct, NumberedUpTo;
      var ch := byID[id].channel;
      var rest := byChan[ch] - {id};
      var without := byChan[ch := rest];
      if rest == map[] {
        without := without - {ch};
        assert without == byChan - {ch};
      }
      byChan := without;
      byID := byID - {id};
    }

    method Connections(channel: string) returns (out: seq<WsConnection>)
      requires Valid()
      ensures Distinct(out) && forall c :: c in out <==> c.id in byID && byID[c.id] == c && c.channel == channel
    {
      out := [];
      var conns := if channel in byChan then byChan[channel] else map[];
      ChannelEntries(byID, byChan, channel);
      hide IndexesAgree;
      var todo := conns.Keys;
      while todo != {}
        invariant todo <= conns.Keys
        invariant Distinct(out)
        invariant forall c :: c in out <==> c.id in conns && conns[c.id] == c && c.id !in todo
        decreases |todo|
      {
        var id :| id in todo;
        out := out + [conns[id]];
        todo := todo - {id};
      }
    }

    method Connection(id: string) returns (found: Option<WsConnection>)
      ensures found == if id in byID then Some(byID[id]) else None
    {
      found := if id in byID then Some(byID[id]) else None;
    }

    method Write(id: string, payload: string)
      requires Valid()
      modifies this`log
      ensures Valid() && log == old(log) + [WsWrite(id, payload)]
    {
      log := log + [WsWrite(id, payload)];
    }

    method Broadcast(address: string, payload: string) returns (ghost sent: seq<WsWrite>)
      requires Valid()
      modifies this`log
      ensures Valid() && log == old(log) + sent
      ensures Reached(sent, OnChannel(byID, address), payload)
    {
      hide Distinct, NumberedUpTo, IndexesAgree, Reached, OnChannel;
      sent := [];
      var conns := Connections(address);
      ByOwnId(byID, byChan);
      for i := 0 to |conns|
        invariant Valid() && log == old(log) + sent
        invariant |sent| == i && forall j :: 0 <= j < i ==> sent[j] == WsWrite(conns[j].id, payload)
      {
        sent := sent + [WsWrite(conns[i].id, payload)];
        Write(conns[i].id, payload);
      }
      AllReached(byID, address, conns, sent, payload);
    }
  }

  lemma ByOwnId(byID: map<string, WsConnection>, byChan: ByChannel)
    requires IndexesAgree(byID, byChan)
    ensures forall id :: id in byID ==> byID[id].id == id
  {
  }

  lemma NextConn(connIDs: seq<string>, top: nat, id: string)
    requires NumberedUpTo(connIDs, top) && Distinct(connIDs) && id == "conn-" + Itoa(top + 1)
    ensures id !in connIDs && Distinct(connIDs + [id]) && NumberedUpTo(connIDs + [id], top + 1) && "conn-" <= id
  {
    assert id == "conn" + "-" + Itoa(top + 1);
    NextIsNew(connIDs, top, id);
  }

  lemma AllReached(byID: map<string, WsConnection>, address: string, conns: seq<WsConnection>, sent: seq<WsWrite>,
                   payload: string)
    requires forall id :: id in byID ==> byID[id].id == id
    requires Distinct(conns) && forall c :: c in conns <==> c.id in byID && byID[c.id] == c && c.channel == address
    requires |sent| == |conns| && forall j :: 0 <= j < |sent| ==> sent[j] == WsWrite(conns[j].id, payload)
    ensures Reached(sent, OnChannel(byID, address), payload)
  {
    forall i, j | 0 <= i < j < |sent|
      ensures sent[i] != sent[j]
    {
      assert conns[i] in conns && conns[j] in conns;
    }
    forall w: WsWrite | w.connID in OnChannel(byID, address) && w.payload == payload
      ensures w in sent
    {
      assert byID[w.connID] in conns;
      var j :| 0 <= j < |conns| && conns[j] == byID[w.connID];
      assert sent[j] == w;
    }
    forall w | w in sent
      ensures w.connID in OnChannel(byID, address) && w.payload == payload
    {
      var j :| 0 <= j < |sent| && sent[j] == w;
      assert conns[j] in conns;
    }
  }
}
