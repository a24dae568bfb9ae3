/** Which consumers a delivery writes to, and why the broadcast shortcut may replace the general loop. */
module DeliveryReach {
  import opened Json
  import opened Decimal
  import opened HubManager
  import WR = WsRegistry
  import SR = SignalRRegistry

  datatype HubChannel = HubChannel(conns: SR.Connections, channelID: string)

  /** The consumers of one address as they stand when a delivery begins. */
  datatype View = View(wsConns: map<string, WR.WsConnection>, hub: Option<HubChannel>)

  /** Connections of the hub with a stream open on the channel. */
  ghost function Streaming(v: View): set<string> {
    match v.hub
    case None => {}
    case Some(hub) => set id | id in hub.conns && HasOpenStream(hub.conns[id], hub.channelID)
  }

  ghost function Listening(v: View, address: string): set<string> {
    WR.OnChannel(v.wsConns, address)
  }

  ghost predicate IsConsumer(info: ConsumerInfo, v: View, address: string) {
    match info.protocol
    case Ws => info.connectionID in Listening(v, address) && info == FromWs(v.wsConns[info.connectionID])
    case SignalR =>
      && v.hub.Some? && info.connectionID in v.hub.value.conns
      && DescribesConnection(info, v.hub.value.conns[info.connectionID], v.hub.value.channelID, address)
  }

  /** Raw connections and hub connections never share an id. */
  ghost predicate ApartIds(v: View) {
    && (forall id :: id in v.wsConns ==> "conn-" <= id)
    && (v.hub.Some? ==> forall id :: id in v.hub.value.conns ==> "signalr-" <= id && v.hub.value.conns[id].id == id)
  }

  ghost function IdsOf(infos: seq<ConsumerInfo>, p: Protocol): set<string> {
    set info | info in infos && info.protocol == p :: info.connectionID
  }

  /**
   * `w` and `s` write `body` once to each given raw connection and once to each open stream of each given hub
   * connection.
   */
  ghost predicate Reaches(w: seq<WR.WsWrite>, s: seq<SR.Write>, v: View, wsIds: set<string>, hubIds: set<string>,
                          body: string) {
    && WR.Reached(w, wsIds, body)
    && match v.hub
       case None => s == []
       case Some(hub) => Distinct(s) && SR.Elements(s) == SR.Items(hub.conns, hubIds, hub.channelID, body)
  }

  /** What the two broadcasts write together. */
  ghost predicate Broadcasts(w: seq<WR.WsWrite>, s: seq<SR.Write>, v: View, address: string, body: string) {
    && WR.Reached(w, Listening(v, address), body)
    && match v.hub
       case None => s == []
       case Some(hub) => SR.Delivers(s, hub.conns, hub.conns.Keys, hub.channelID, body, hub.channelID)
  }

  lemma ReachesNobody(v: View, body: string)
    ensures Reaches([], [], v, {}, {}, body)
  {
  }

  lemma DistinctAppend<T>(a: seq<T>, b: seq<T>)
    requires Distinct(a) && Distinct(b) && forall x :: x in a ==> x !in b
    ensures Distinct(a + b)
  {
    var c := a + b;
    forall i, j | 0 <= i < j < |c|
      ensures c[i] != c[j]
    {
      if i < |a| <= j {
        assert c[i] == a[i] && c[j] == b[j - |a|];
        assert a[i] in a && b[j - |a|] in b;
      }
    }
  }

  lemma FirstIsMember<T>(s: seq<T>)
    ensures s != [] ==> s[0] in s
  {
  }

  lemma ReachesMore(w: seq<WR.WsWrite>, s: seq<SR.Write>, w': seq<WR.WsWrite>, s': seq<SR.Write>, v: View,
                    wsIds: set<string>, hubIds: set<string>, wsIds': set<string>, hubIds': set<string>, body: string)
    requires Reaches(w, s, v, wsIds, hubIds, body) && Reaches(w', s', v, wsIds', hubIds', body)
    requires wsIds !! wsIds' && hubIds !! hubIds'
    ensures Reaches(w + w', s + s', v, wsIds + wsIds', hubIds + hubIds', body)
  {
    DistinctAppend(w, w');
    if v.hub.Some? {
      var hub := v.hub.value;
      var items := SR.Items(hub.conns, hubIds, hub.channelID, body);
      var items' := SR.Items(hub.conns, hubIds', hub.channelID, body);
      forall x | x in s
        ensures x !in s'
      {
        assert x in SR.Elements(s);
        assert x in s' ==> x in SR.Elements(s');
      }
      DistinctAppend(s, s');
      assert SR.Elements(s + s') == items + items' by {
        assert forall x :: x in s + s' <==> x in s || x in s';
        assert forall x :: x in s <==> x in SR.Elements(s);
        assert forall x :: x in s' <==> x in SR.Elements(s');
      }
      assert SR.Items(hub.conns, hubIds + hubIds', hub.channelID, body) == items + items';
    }
  }

  /** Reaching one candidate. */
  lemma ReachesOne(info: ConsumerInfo, v: View, address: string, w: seq<WR.WsWrite>, s: seq<SR.Write>, body: string)
    requires ApartIds(v) && IsConsumer(info, v, address)
    requires if info.connectionID in v.wsConns then w == [WR.WsWrite(info.connectionID, body)] && s == []
             else w == [] && (v.hub.Some? && info.connectionID in v.hub.value.conns ==>
                    SR.Delivers(s, v.hub.value.conns, {info.connectionID}, v.hub.value.channelID, body,
                                v.hub.value.channelID))
    ensures Reaches(w, s, v, IdsOf([info], Ws), IdsOf([info], SignalR), body)
  {
    var id := info.connectionID;
    match info.protocol
    case Ws =>
      assert IdsOf([info], Ws) == {id} && IdsOf([info], SignalR) == {};
      if v.hub.Some? {
        assert SR.Items(v.hub.value.conns, {}, v.hub.value.channelID, body) == {};
      }
    case SignalR =>
      assert IdsOf([info], Ws) == {} && IdsOf([info], SignalR) == {id};
      var hub := v.hub.value;
      assert id[0] == "signalr-"[0] != "conn-"[0];
      var inv :| inv in hub.conns[id].streams && hub.conns[id].streams[inv].channelID == hub.channelID;
      assert SR.StreamItem(id, inv, body) in SR.Items(hub.conns, {id}, hub.channelID, body);
  }

  // ----- the shortcut -----

  lemma {:induction false} SameElementsSameMultiset<T>(a: seq<T>, b: seq<T>)
    requires Distinct(a) && Distinct(b) && forall x :: x in a <==> x in b
    ensures multiset(a) == multiset(b)
  {
    forall x
      ensures multiset(a)[x] == multiset(b)[x]
    {
      OccursOnce(a, x);
      OccursOnce(b, x);
    }
  }

  lemma {:induction false} OccursOnce<T>(a: seq<T>, x: T)
    requires Distinct(a)
    ensures multiset(a)[x] == if x in a then 1 else 0
  {
    if a != [] {
      OccursOnce(a[1..], x);
      assert a == [a[0]] + a[1..];
    }
  }

  lemma AllItemsAreStreaming(v: View, body: string)
    requires v.hub.Some?
    ensures var hub := v.hub.value;
            && SR.Items(hub.conns, Streaming(v), hub.channelID, body)
               == SR.Items(hub.conns, hub.conns.Keys, hub.channelID, body)
            && (SR.Items(hub.conns, hub.conns.Keys, hub.channelID, body) == {} <==> Streaming(v) == {})
  {
    var hub := v.hub.value;
    var all := SR.Items(hub.conns, hub.conns.Keys, hub.channelID, body);
    assert SR.Items(hub.conns, Streaming(v), hub.channelID, body) == all;
    forall id | id in Streaming(v)
      ensures all != {}
    {
      var inv :| inv in hub.conns[id].streams && hub.conns[id].streams[inv].channelID == hub.channelID;
      assert SR.StreamItem(id, inv, body) in all;
    }
    if x :| x in all {
      assert x.connID in Streaming(v);
    }
  }

  /**
   * With no connection conditions, the two broadcasts write what the loop over every candidate writes,
   * to raw consumers always, and to the hub exactly when some stream is open or the hub has no connection.
   */
  lemma BroadcastAgreesWithLoop(v: View, address: string, body: string,
                                w: seq<WR.WsWrite>, s: seq<SR.Write>, w': seq<WR.WsWrite>, s': seq<SR.Write>)
    requires Broadcasts(w, s, v, address, body)
    requires Reaches(w', s', v, Listening(v, address), Streaming(v), body)
    ensures multiset(w) == multiset(w')
    ensures multiset(s) == multiset(s') <==> v.hub.None? || Streaming(v) != {} || v.hub.value.conns == map[]
  {
    SameElementsSameMultiset(w, w');
    if v.hub.Some? {
      var hub := v.hub.value;
      AllItemsAreStreaming(v, body);
      if Streaming(v) != {} {
        assert forall x :: x in s <==> x in SR.Elements(s);
        assert forall x :: x in s' <==> x in SR.Elements(s');
        SameElementsSameMultiset(s, s');
      } else {
        assert s' == [] by {
          assert forall x :: x in s' <==> x in SR.Elements(s');
          FirstIsMember(s');
        }
        if hub.conns == map[] {
          FirstIsMember(s);
        } else {
          var id :| id in hub.conns;
          var x :| x in s && x.connID == id;
          assert multiset(s)[x] > 0 && multiset(s')[x] == 0;
        }
      }
    }
  }

  /** A hub with one connection and no open stream: the shortcut invokes the connection, the loop reaches nobody. */
  lemma ShortcutInvokesIdleConnections(address: string, body: string)
    ensures var idle := SR.Connection("signalr-1", "", map[], map[], map[]);
            var v := View(map[], Some(HubChannel(map["signalr-1" := idle], "chat")));
            var s := [SR.Invocation("signalr-1", "chat-2", "chat", body)];
            && Broadcasts([], s, v, address, body)
            && Reaches([], [], v, Listening(v, address), Streaming(v), body)
            && multiset(s) != multiset([])
  {
    var idle := SR.Connection("signalr-1", "", map[], map[], map[]);
    var conns := map["signalr-1" := idle];
    var v := View(map[], Some(HubChannel(conns, "chat")));
    var s := [SR.Invocation("signalr-1", "chat-2", "chat", body)];
    assert SR.Items(conns, conns.Keys, "chat", body) == {};
    assert SR.Items(conns, Streaming(v), "chat", body) == {};
    assert Listening(v, address) == {};
    assert s[0] in multiset(s);
  }
}
