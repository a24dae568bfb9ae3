/** Consumers of a channel across raw WebSockets and SignalR hubs (internal/server/hubmanager.go). */
module HubManager {
  import opened Json
  import opened Decimal
  import WR = WsRegistry
  import SR = SignalRRegistry

  datatype Protocol = Ws | SignalR

  /** A delivery candidate with the context captured at its upgrade. */
  datatype ConsumerInfo = ConsumerInfo(
    connectionID: string, channel: string, query: map<string, seq<string>>, headers: map<string, seq<string>>,
    streams: seq<SR.Stream>, path: string, protocol: Protocol)

  /** `channels` maps channel ids to addresses. */
  datatype Hub = Hub(prefix: string, channels: map<string, string>, conns: SR.SignalRConnRegistry)

  // ----- addresses -----

  function TrimLeftSlashes(s: string): string {
    if s != [] && s[0] == '/' then TrimLeftSlashes(s[1..]) else s
  }

  function TrimSlashes(s: string): string {
    if s != [] && s[|s| - 1] == '/' then TrimSlashes(s[..|s| - 1]) else TrimLeftSlashes(s)
  }

  function AddressWithPrefix(prefix: string, address: string): string {
    var addr := "/" + TrimSlashes(address);
    if prefix == "" then addr else "/" + TrimSlashes(prefix) + addr
  }

  predicate Owns(h: Hub, channelID: string, address: string) {
    channelID in h.channels && AddressWithPrefix(h.prefix, h.channels[channelID]) == address
  }

  ghost predicate OwnsSome(h: Hub, address: string) {
    exists c :: Owns(h, c, address)
  }

  // ----- what a delivery reaches -----

  predicate HasOpenStream(c: SR.Connection, channelID: string) {
    exists inv :: inv in c.streams && c.streams[inv].channelID == channelID
  }

  function FromWs(c: WR.WsConnection): ConsumerInfo {
    ConsumerInfo(c.id, c.channel, c.query, c.headers, [], "", Ws)
  }

  /** One candidate per connection with an open stream, carrying every such stream once. */
  ghost predicate DescribesConnection(info: ConsumerInfo, c: SR.Connection, channelID: string, address: string) {
    && info == ConsumerInfo(c.id, address, c.query, c.headers, info.streams, c.path, SignalR)
    && HasOpenStream(c, channelID)
    && Distinct(info.streams)
    && forall s :: s in info.streams <==>
        s.invocationID in c.streams && c.streams[s.invocationID] == s && s.channelID == channelID
  }

  /** The streams of connection `id` among the entries, in order. */
  function StreamsOf(entries: seq<SR.StreamEntry>, id: string): seq<SR.Stream> {
    if entries == [] then []
    else
      var before, last := entries[..|entries| - 1], entries[|entries| - 1];
      StreamsOf(before, id) + if last.connectionID == id then [last.stream] else []
  }

  lemma {:induction false} InStreamsOf(entries: seq<SR.StreamEntry>, id: string)
    ensures forall s :: s in StreamsOf(entries, id) <==>
              exists i :: 0 <= i < |entries| && entries[i].connectionID == id && entries[i].stream == s
  {
    if entries != [] {
      var before, last := entries[..|entries| - 1], entries[|entries| - 1];
      InStreamsOf(before, id);
      forall s | s in StreamsOf(entries, id)
        ensures exists i :: 0 <= i < |entries| && entries[i].connectionID == id && entries[i].stream == s
      {
        if s in StreamsOf(before, id) {
          var i :| 0 <= i < |before| && before[i].connectionID == id && before[i].stream == s;
          assert entries[i] == before[i];
        } else {
          assert entries[|entries| - 1].stream == s;
        }
      }
      forall i | 0 <= i < |entries| && entries[i].connectionID == id
        ensures entries[i].stream in StreamsOf(entries, id)
      {
        if i < |before| {
          assert before[i] == entries[i];
          assert entries[i].stream in StreamsOf(before, id);
        }
      }
    }
  }

  lemma EntriesDiffer(e: SR.StreamEntry, f: SR.StreamEntry, conns: SR.Connections, channelID: string)
    requires SR.IsEntry(e, conns, channelID) && SR.IsEntry(f, conns, channelID)
    requires e != f && e.connectionID == f.connectionID
    ensures e.stream != f.stream
  {
  }

  lemma {:induction false} StreamsOfDistinct(entries: seq<SR.StreamEntry>, id: string, conns: SR.Connections,
                                             channelID: string)
    requires Distinct(entries) && forall e :: e in entries ==> SR.IsEntry(e, conns, channelID)
    ensures Distinct(StreamsOf(entries, id))
  {
    if entries != [] {
      var before, last := entries[..|entries| - 1], entries[|entries| - 1];
      StreamsOfDistinct(before, id, conns, channelID);
      InStreamsOf(before, id);
      assert last in entries;
      forall i | 0 <= i < |before| && before[i].connectionID == last.connectionID
        ensures before[i].stream != last.stream
      {
        assert entries[i] in entries && entries[i] == before[i];
        EntriesDiffer(before[i], last, conns, channelID);
      }
      assert last.connectionID == id ==> last.stream !in StreamsOf(before, id);
    }
  }

  class HubManager {
    const hubs: seq<Hub>
    const ws: WR.ConnectionRegistry?

    constructor (hubs: seq<Hub>, ws: WR.ConnectionRegistry?)
      ensures this.hubs == hubs && this.ws == ws
    {
      this.hubs := hubs;
      this.ws := ws;
    }

    ghost function Registries(): set<object> {
      set h | h in hubs :: h.conns
    }

    ghost function Repr(): set<object> {
      Registries() + if ws == null then {} else {ws}
    }

    ghost predicate Valid()
      reads Repr()
    {
      && (ws != null ==> ws.Valid())
      && forall h :: h in hubs ==> h.conns.Valid()
    }

    /** Channel addresses are unique across hubs, and every hub has a registry of its own. */
    ghost predicate UniqueAddresses() {
      && (forall g, c, h, d, a :: g in hubs && h in hubs && Owns(g, c, a) && Owns(h, d, a) ==> g == h && c == d)
      && forall g, h :: g in hubs && h in hubs && g.conns == h.conns ==> g == h
    }

    ghost predicate Owned(address: string, h: Hub, channelID: string) {
      h in hubs && Owns(h, channelID, address)
    }

    method HubForAddress(address: string) returns (hub: Option<Hub>)
      ensures hub.Some? ==> exists c :: Owned(address, hub.value, c)
      ensures hub.None? ==> forall h, c :: !Owned(address, h, c)
    {
      for i := 0 to |hubs|
        invariant forall j, c :: 0 <= j < i ==> !Owned(address, hubs[j], c)
      {
        var todo := hubs[i].channels.Keys;
        while todo != {}
          invariant todo <= hubs[i].channels.Keys
          invariant forall c :: c in hubs[i].channels && c !in todo ==> !Owned(address, hubs[i], c)
          decreases |todo|
        {
          var c :| c in todo;
          if AddressWithPrefix(hubs[i].prefix, hubs[i].channels[c]) == address {
            assert Owned(address, hubs[i], c);
            return Some(hubs[i]);
          }
          todo := todo - {c};
        }
      }
      return None;
    }

    method HubChannelForAddress(address: string) returns (hub: Option<Hub>, channelID: string)
      ensures hub.Some? ==> Owned(address, hub.value, channelID)
      ensures hub.None? ==> forall h, c :: !Owned(address, h, c)
    {
      channelID := "";
      hub := HubForAddress(address);
      if hub.None? {
        return;
      }
      var h := hub.value;
      var todo := h.channels.Keys;
      while todo != {}
        invariant todo <= h.channels.Keys
        invariant exists c :: c in todo && Owned(address, h, c)
        decreases |todo|
      {
        var c :| c in todo;
        if AddressWithPrefix(h.prefix, h.channels[c]) == address {
          channelID := c;
          return;
        }
        todo := todo - {c};
      }
    }

    /** What a push into one hub channel may do to the registries: append to the log of the owner. */
    twostate predicate OnlyOwnerWrote(address: string, sent: seq<SR.Write>)
      reads Repr()
    {
      forall h :: h in hubs ==>
        && h.conns.conns == old(h.conns.conns)
        && h.conns.log == old(h.conns.log) + if OwnsSome(h, address) then sent else []
    }

    method SignalRPush(address: string, payload: string) returns (ghost sent: seq<SR.Write>)
      requires Valid() && UniqueAddresses()
      modifies Registries()
      ensures Valid() && OnlyOwnerWrote(address, sent)
      ensures forall h, c :: Owned(address, h, c) ==>
                SR.Delivers(sent, h.conns.conns, h.conns.conns.Keys, c, payload, c)
      ensures (forall h, c :: !Owned(address, h, c)) ==> sent == []
    {
      hide WR.ConnectionRegistry.Valid, SR.SignalRConnRegistry.Valid, SR.Delivers, Owns;
      var hub, channelID := HubChannelForAddress(address);
      sent := [];
      if hub.Some? {
        sent := hub.value.conns.PushToStreams(channelID, payload, channelID);
      }
    }

    method WSBroadcast(address: string, payload: string) returns (ghost sent: seq<WR.WsWrite>)
      requires Valid()
      modifies if ws == null then {} else {ws}
      ensures Valid()
      ensures if ws == null then sent == [] else
                && ws.log == old(ws.log) + sent && ws.byID == old(ws.byID)
                && WR.Reached(sent, WR.OnChannel(ws.byID, address), payload)
    {
      sent := [];
      if ws == null {
        return;
      }
      sent := ws.Broadcast(address, payload);
    }

    ghost predicate IsCandidate(info: ConsumerInfo, address: string)
      reads Repr()
    {
      match info.protocol
      case Ws =>
        && ws != null && info.connectionID in WR.OnChannel(ws.byID, address)
        && info == FromWs(ws.byID[info.connectionID])
      case SignalR =>
        exists h, c :: h in hubs && Owns(h, c, address) && info.connectionID in h.conns.conns
          && DescribesConnection(info, h.conns.conns[info.connectionID], c, address)
    }

    /** Every consumer of a channel, once. */
    method Candidates(address: string) returns (out: seq<ConsumerInfo>)
      requires Valid() && UniqueAddresses()
      ensures forall info :: info in out ==> IsCandidate(info, address)
      ensures forall i, j :: 0 <= i < j < |out| ==> out[i].connectionID != out[j].connectionID
      ensures ws != null ==>
                forall id :: id in WR.OnChannel(ws.byID, address) ==>
                  exists info :: info in out && info.connectionID == id && info.protocol == Ws
      ensures forall h, c, id :: Owned(address, h, c) && id in h.conns.conns && HasOpenStream(h.conns.conns[id], c) ==>
                exists info :: info in out && info.connectionID == id && info.protocol == SignalR
    {
      hide WR.ConnectionRegistry.Valid, SR.SignalRConnRegistry.Valid, DescribesConnection, HasOpenStream, Owns;
      out := WsCandidates(address);
      ghost var n := |out|;
      var hub, channelID := HubChannelForAddress(address);
      if hub.Some? {
        var more := SignalRCandidates(hub.value, channelID, address);
        ghost var before := out;
        out := out + more;
        forall info | info in more
          ensures IsCandidate(info, address)
        {
        }
        forall i, j | 0 <= i < n <= j < |out|
          ensures out[i].connectionID != out[j].connectionID
        {
          assert out[i] == before[i] && out[j] == more[j - n];
          assert out[i].connectionID[0] == 'c' && out[j].connectionID[0] == 's';
        }
      }
    }

    method WsCandidates(address: string) returns (out: seq<ConsumerInfo>)
      requires Valid()
      ensures forall info :: info in out ==>
                info.protocol == Ws && IsCandidate(info, address) && "conn-" <= info.connectionID
      ensures forall i, j :: 0 <= i < j < |out| ==> out[i].connectionID != out[j].connectionID
      ensures ws != null ==>
                forall id :: id in WR.OnChannel(ws.byID, address) ==>
                  exists info :: info in out && info.connectionID == id && info.protocol == Ws
    {
      out := [];
      if ws == null {
        return;
      }
      var conns := ws.Connections(address);
      for i := 0 to |conns|
        invariant |out| == i && forall j :: 0 <= j < i ==> out[j] == FromWs(conns[j])
      {
        assert conns[i] in conns;
        out := out + [FromWs(conns[i])];
      }
      forall i, j | 0 <= i < j < |out|
        ensures out[i].connectionID != out[j].connectionID
      {
        assert conns[i] in conns && conns[j] in conns;
      }
      forall id | id in WR.OnChannel(ws.byID, address)
        ensures exists info :: info in out && info.connectionID == id && info.protocol == Ws
      {
        assert ws.byID[id] in conns;
        var j :| 0 <= j < |conns| && conns[j] == ws.byID[id];
        assert out[j] in out;
      }
      forall info | info in out
        ensures info.protocol == Ws && IsCandidate(info, address) && "conn-" <= info.connectionID
      {
        var j :| 0 <= j < |out| && out[j] == info;
        assert conns[j] in conns;
      }
    }

    /** The second half of Candidates: `seen` finds the candidate a further stream of a connection belongs to. */
    method SignalRCandidates(h: Hub, channelID: string, address: string) returns (out: seq<ConsumerInfo>)
      requires h.conns.Valid()
      ensures forall info :: info in out ==>
                && info.connectionID in h.conns.conns
                && DescribesConnection(info, h.conns.conns[info.connectionID], channelID, address)
      ensures forall info :: info in out ==> info.protocol == SignalR && "signalr-" <= info.connectionID
      ensures forall i, j :: 0 <= i < j < |out| ==> out[i].connectionID != out[j].connectionID
      ensures forall id :: id in h.conns.conns && HasOpenStream(h.conns.conns[id], channelID) ==>
                exists info :: info in out && info.connectionID == id && info.protocol == SignalR
    {
      hide Grouped, DescribesConnection, HasOpenStream, Distinct, SR.IsEntry, SR.WellFormed;
      out := [];
      var seen: map<string, nat> := map[];
      var entries := h.conns.StreamEntriesForChannel(channelID);
      NothingGrouped(h.conns.conns, channelID, address);
      for i := 0 to |entries|
        invariant Grouped(entries[..i], out, seen, h.conns.conns, channelID, address)
      {
        var entry := entries[i];
        assert entry in entries;
        GroupStep(entries[..i], entry, out, seen, h.conns.conns, channelID, address);
        assert entries[..i + 1] == entries[..i] + [entry];
        var connID := entry.connectionID;
        if connID in seen {
          var idx := seen[connID];
          out := out[idx := out[idx].(streams := out[idx].streams + [entry.stream])];
          continue;
        }
        seen := seen[connID := |out|];
        out := out + [ConsumerInfo(connID, address, entry.query, entry.headers, [entry.stream], entry.path, SignalR)];
      }
      assert entries[..|entries|] == entries;
      GroupedIsComplete(entries, out, seen, h.conns.conns, channelID, address);
    }

    method PushTo(consumer: ConsumerInfo, address: string, payload: string)
      returns (ghost w: seq<WR.WsWrite>, ghost s: seq<SR.Write>)
      requires Valid() && UniqueAddresses()
      modifies Repr()
      ensures Valid() && OnlyOwnerWrote(address, s)
      ensures ws != null ==> ws.log == old(ws.log) + w && ws.byID == old(ws.byID)
      ensures if ws != null && consumer.connectionID in ws.byID
              then w == [WR.WsWrite(consumer.connectionID, payload)] && s == []
              else w == [] && forall h, c :: Owned(address, h, c) ==>
                     if consumer.connectionID in h.conns.conns
                     then SR.Delivers(s, h.conns.conns, {consumer.connectionID}, c, payload, c) else s == []
      ensures (forall h, c :: !Owned(address, h, c)) ==> s == []
    {
      hide WR.ConnectionRegistry.Valid, SR.SignalRConnRegistry.Valid, SR.Delivers, Owns;
      w, s := [], [];
      if ws != null {
        var found := ws.Connection(consumer.connectionID);
        if found.Some? {
          ws.Write(consumer.connectionID, payload);
          w := [WR.WsWrite(consumer.connectionID, payload)];
          return;
        }
      }
      var hub, channelID := HubChannelForAddress(address);
      if hub.None? {
        return;
      }
      s := hub.value.conns.PushToConnection(consumer.connectionID, channelID, payload, channelID);
    }
  }

  // ----- grouping stream entries by connection -----

  ghost predicate Grouped(entries: seq<SR.StreamEntry>, out: seq<ConsumerInfo>, seen: map<string, nat>,
                          conns: SR.Connections, channelID: string, address: string) {
    && (forall id :: id in seen ==> seen[id] < |out| && out[seen[id]].connectionID == id)
    && (forall i :: 0 <= i < |out| ==> out[i].connectionID in seen && seen[out[i].connectionID] == i)
    && (forall i :: 0 <= i < |entries| ==> entries[i].connectionID in seen)
    && forall i :: 0 <= i < |out| ==> ListsStreams(out[i], entries, conns, address)
  }

  ghost predicate ListsStreams(info: ConsumerInfo, entries: seq<SR.StreamEntry>, conns: SR.Connections,
                               address: string) {
    && info.connectionID in conns
    && var c := conns[info.connectionID];
       info == ConsumerInfo(info.connectionID, address, c.query, c.headers, StreamsOf(entries, info.connectionID),
           c.path, SignalR)
       && info.streams != []
  }

  lemma NothingGrouped(conns: SR.Connections, channelID: string, address: string)
    ensures Grouped([], [], map[], conns, channelID, address)
  {
  }

  lemma GroupStep(entries: seq<SR.StreamEntry>, entry: SR.StreamEntry, out: seq<ConsumerInfo>, seen: map<string, nat>,
                  conns: SR.Connections, channelID: string, address: string)
    requires Grouped(entries, out, seen, conns, channelID, address) && SR.IsEntry(entry, conns, channelID)
    ensures var id, longer := entry.connectionID, entries + [entry];
            if id in seen then
              var idx := seen[id];
              idx < |out| &&
              Grouped(longer, out[idx := out[idx].(streams := out[idx].streams + [entry.stream])], seen, conns,
                  channelID, address)
            else
              Grouped(longer, out + [ConsumerInfo(id, address, entry.query, entry.headers, [entry.stream],
                  entry.path, SignalR)],
                      seen[id := |out|], conns, channelID, address)
  {
    hide ListsStreams, SR.IsEntry, StreamsOf;
    var id, longer := entry.connectionID, entries + [entry];
    forall i | 0 <= i < |out|
      ensures if out[i].connectionID == id
              then ListsStreams(out[i].(streams := out[i].streams + [entry.stream]), longer, conns, address)
              else ListsStreams(out[i], longer, conns, address)
    {
      ListsNext(entries, entry, out[i], conns, channelID, address);
    }
    UnseenHasNone(entries, seen, id);
    if id !in seen {
      ListsFirst(entries, entry, conns, channelID, address);
    }
    assert longer[|entries|] == entry && forall i :: 0 <= i < |entries| ==> longer[i] == entries[i];
  }

  lemma ListsNext(entries: seq<SR.StreamEntry>, entry: SR.StreamEntry, info: ConsumerInfo,
                  conns: SR.Connections, channelID: string, address: string)
    requires ListsStreams(info, entries, conns, address) && SR.IsEntry(entry, conns, channelID)
    ensures var longer := entries + [entry];
            if info.connectionID == entry.connectionID
            then ListsStreams(info.(streams := info.streams + [entry.stream]), longer, conns, address)
            else ListsStreams(info, longer, conns, address)
  {
    StreamsOfSnoc(entries, entry, info.connectionID);
  }

  lemma ListsFirst(entries: seq<SR.StreamEntry>, entry: SR.StreamEntry, conns: SR.Connections, channelID: string,
                   address: string)
    requires SR.IsEntry(entry, conns, channelID) && StreamsOf(entries, entry.connectionID) == []
    ensures ListsStreams(ConsumerInfo(entry.connectionID, address, entry.query, entry.headers, [entry.stream],
                                      entry.path, SignalR),
                         entries + [entry], conns, address)
  {
    StreamsOfSnoc(entries, entry, entry.connectionID);
  }

  lemma StreamsOfSnoc(entries: seq<SR.StreamEntry>, entry: SR.StreamEntry, id: string)
    ensures StreamsOf(entries + [entry], id)
            == StreamsOf(entries, id) + if entry.connectionID == id then [entry.stream] else []
  {
    assert (entries + [entry])[..|entries|] == entries;
  }

  lemma UnseenHasNone(entries: seq<SR.StreamEntry>, seen: map<string, nat>, id: string)
    requires forall i :: 0 <= i < |entries| ==> entries[i].connectionID in seen
    ensures id !in seen ==> StreamsOf(entries, id) == []
  {
    InStreamsOf(entries, id);
    if StreamsOf(entries, id) != [] {
      assert StreamsOf(entries, id)[0] in StreamsOf(entries, id);
    }
  }

  lemma GroupedIsComplete(entries: seq<SR.StreamEntry>, out: seq<ConsumerInfo>, seen: map<string, nat>,
                          conns: SR.Connections, channelID: string, address: string)
    requires Grouped(entries, out, seen, conns, channelID, address)
    requires Distinct(entries) && forall e :: e in entries <==> SR.IsEntry(e, conns, channelID)
    requires forall id :: id in conns ==> SR.WellFormed(id, conns[id])
    ensures forall info :: info in out ==>
              info.connectionID in conns && DescribesConnection(info, conns[info.connectionID], channelID, address)
    ensures forall info :: info in out ==> info.protocol == SignalR && "signalr-" <= info.connectionID
    ensures forall i, j :: 0 <= i < j < |out| ==> out[i].connectionID != out[j].connectionID
    ensures forall id :: id in conns && HasOpenStream(conns[id], channelID) ==>
              exists info :: info in out && info.connectionID == id && info.protocol == SignalR
  {
    hide DescribesConnection, HasOpenStream, Distinct, SR.IsEntry, ListsStreams;
    forall info | info in out
      ensures info.connectionID in conns && DescribesConnection(info, conns[info.connectionID], channelID, address)
      ensures info.protocol == SignalR && "signalr-" <= info.connectionID
    {
      var k :| 0 <= k < |out| && out[k] == info;
      assert ListsStreams(out[k], entries, conns, address);
      DescribesListed(entries, info, conns, channelID, address);
    }
    forall id | id in conns && HasOpenStream(conns[id], channelID)
      ensures exists info :: info in out && info.connectionID == id && info.protocol == SignalR
    {
      var i := EntryOf(entries, id, conns, channelID);
      assert out[seen[id]] in out;
    }
  }

  lemma DescribesListed(entries: seq<SR.StreamEntry>, info: ConsumerInfo, conns: SR.Connections, channelID: string,
                        address: string)
    requires ListsStreams(info, entries, conns, address)
    requires Distinct(entries) && forall e :: e in entries <==> SR.IsEntry(e, conns, channelID)
    requires forall id :: id in conns ==> SR.WellFormed(id, conns[id])
    ensures info.connectionID in conns && DescribesConnection(info, conns[info.connectionID], channelID, address)
    ensures info.protocol == SignalR && "signalr-" <= info.connectionID
  {
    hide SR.IsEntry, Distinct;
    StreamsOfDistinct(entries, info.connectionID, conns, channelID);
    StreamsAreOpen(entries, info, conns, channelID);
    var first := info.streams[0];
    assert first in info.streams;
    assert conns[info.connectionID].streams[first.invocationID].channelID == channelID;
  }

  lemma EntryOf(entries: seq<SR.StreamEntry>, id: string, conns: SR.Connections, channelID: string) returns (i: nat)
    requires forall e :: e in entries <==> SR.IsEntry(e, conns, channelID)
    requires id in conns && SR.WellFormed(id, conns[id]) && HasOpenStream(conns[id], channelID)
    ensures i < |entries| && entries[i].connectionID == id
  {
    var c := conns[id];
    var inv :| inv in c.streams && c.streams[inv].channelID == channelID;
    var e := SR.StreamEntry(id, c.path, c.query, c.headers, c.streams[inv]);
    assert SR.IsEntry(e, conns, channelID);
    i :| 0 <= i < |entries| && entries[i] == e;
  }

  lemma StreamsAreOpen(entries: seq<SR.StreamEntry>, info: ConsumerInfo, conns: SR.Connections, channelID: string)
    requires forall e :: e in entries <==> SR.IsEntry(e, conns, channelID)
    requires info.connectionID in conns && SR.WellFormed(info.connectionID, conns[info.connectionID])
    requires info.streams == StreamsOf(entries, info.connectionID)
    ensures var c := conns[info.connectionID];
            forall s :: s in info.streams <==>
                s.invocationID in c.streams && c.streams[s.invocationID] == s && s.channelID == channelID
  {
    var id, c := info.connectionID, conns[info.connectionID];
    InStreamsOf(entries, id);
    forall s | s in info.streams
      ensures s.invocationID in c.streams && c.streams[s.invocationID] == s && s.channelID == channelID
    {
      var i :| 0 <= i < |entries| && entries[i].connectionID == id && entries[i].stream == s;
      assert entries[i] in entries;
    }
    forall s: SR.Stream | s.invocationID in c.streams && c.streams[s.invocationID] == s && s.channelID == channelID
      ensures s in info.streams
    {
      var e := SR.StreamEntry(id, c.path, c.query, c.headers, s);
      assert SR.IsEntry(e, conns, channelID);
      var i :| 0 <= i < |entries| && entries[i] == e;
      assert entries[i].stream == s;
    }
  }

  // ----- addresses as they are written -----

  predicate Slashes(s: string) {
    forall i :: 0 <= i < |s| ==> s[i] == '/'
  }

  /** Neither opens nor ends with a slash. */
  predicate Core(s: string) {
    s != [] ==> s[0] != '/' && s[|s| - 1] != '/'
  }

  lemma {:induction false} TrimLeftSlashesOf(slashes: string, rest: string)
    requires Slashes(slashes) && (rest != [] ==> rest[0] != '/')
    ensures TrimLeftSlashes(slashes + rest) == rest
  {
    if slashes == [] {
      assert slashes + rest == rest;
    } else {
      assert (slashes + rest)[1..] == slashes[1..] + rest;
      TrimLeftSlashesOf(slashes[1..], rest);
    }
  }

  /** Trimming removes the slashes around a text and nothing else. */
  lemma {:induction false} TrimmedCore(before: string, core: string, after: string)
    requires Slashes(before) && Slashes(after) && Core(core)
    ensures TrimSlashes(before + core + after) == core
    decreases |before| + |after|
  {
    var s := before + core + after;
    if after != [] {
      var fewer := after[..|after| - 1];
      assert s[|s| - 1] == '/' && s[..|s| - 1] == before + core + fewer;
      TrimmedCore(before, core, fewer);
    } else if core != [] {
      assert s == before + core && s[|s| - 1] == core[|core| - 1];
      TrimLeftSlashesOf(before, core);
    } else if before != [] {
      var fewer := before[..|before| - 1];
      assert s == before && s[..|s| - 1] == fewer + [] + [];
      TrimmedCore(fewer, [], []);
    }
  }

  /** Every text is a core between slashes. */
  lemma {:induction false} SplitCore(s: string) returns (before: string, core: string, after: string)
    ensures s == before + core + after && Slashes(before) && Slashes(after) && Core(core)
    ensures TrimSlashes(s) == core
  {
    before, core, after := [], s, [];
    while core != [] && core[0] == '/'
      invariant s == before + core + after && Slashes(before) && after == []
      decreases |core|
    {
      before, core := before + [core[0]], core[1..];
    }
    while core != [] && core[|core| - 1] == '/'
      invariant s == before + core + after && Slashes(before) && Slashes(after)
      invariant core != [] ==> core[0] != '/'
      decreases |core|
    {
      core, after := core[..|core| - 1], [core[|core| - 1]] + after;
    }
    TrimmedCore(before, core, after);
  }

  /** Prefix first, then address, each behind one slash; without a prefix, the address alone. */
  lemma AddressIs(a: string, prefix: string, b: string, c: string, address: string, d: string)
    requires Slashes(a) && Slashes(b) && Slashes(c) && Slashes(d) && Core(prefix) && Core(address)
    ensures a + prefix + b != "" ==> AddressWithPrefix(a + prefix + b, c + address + d) == "/" + prefix + "/" + address
    ensures AddressWithPrefix("", c + address + d) == "/" + address
  {
    TrimmedCore(a, prefix, b);
    TrimmedCore(c, address, d);
    assert "/" + prefix + ("/" + address) == "/" + prefix + "/" + address;
  }

  /** A push to the written address of a channel writes in the hub of that channel and reaches its streams. */
  method PushToChannel(bus: HubManager, h: Hub, channelID: string, ghost a: string, prefix: string, ghost b: string,
                       ghost c: string, address: string, ghost d: string, payload: string)
    returns (ghost sent: seq<SR.Write>)
    requires bus.Valid() && bus.UniqueAddresses() && h in bus.hubs && channelID in h.channels
    requires Slashes(a) && Slashes(b) && Slashes(c) && Slashes(d) && Core(prefix) && Core(address)
    requires h.prefix == a + prefix + b && h.prefix != "" && h.channels[channelID] == c + address + d
    modifies bus.Registries()
    ensures bus.Valid() && h.conns.conns == old(h.conns.conns) && h.conns.log == old(h.conns.log) + sent
    ensures SR.Delivers(sent, h.conns.conns, h.conns.conns.Keys, channelID, payload, channelID)
    ensures forall g :: g in bus.hubs && g != h ==> g.conns.log == old(g.conns.log)
  {
    var text := "/" + prefix + "/" + address;
    AddressIs(a, prefix, b, c, address, d);
    assert bus.Owned(text, h, channelID);
    hide SR.Delivers, AddressWithPrefix;
    sent := bus.SignalRPush(text, payload);
  }

  /** A raw candidate carries the fields of its connection, and neither path nor streams. */
  lemma RawCandidate(id: string, channel: string, query: map<string, seq<string>>, headers: map<string, seq<string>>)
    ensures var info := FromWs(WR.WsConnection(id, channel, query, headers));
            && info.connectionID == id && info.channel == channel && info.query == query && info.headers == headers
            && info.streams == [] && info.path == "" && info.protocol == Ws
  {
  }
}
