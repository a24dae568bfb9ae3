/** Rendering and delivery of subscribed message examples (internal/server/message_delivery.go). */
module MessageDelivery {
  import opened Json
  import opened Decimal
  import opened Expressions
  import opened StringTemplating
  import opened ValueTemplating
  import opened StateStore
  import opened SetState
  import opened ParamsMatch
  import opened HubManager
  import opened DeliveryReach
  import WR = WsRegistry
  import SR = SignalRRegistry

  // ----- examples and their extensions -----

  datatype MessageExample = MessageExample(payload: Value, extensions: map<string, Value>)

  function ValueSkip(ex: MessageExample): bool {
    "x-mock-skip" in ex.extensions && ex.extensions["x-mock-skip"] == Bool(true)
  }

  function AsMap(ex: MessageExample, key: string): Option<map<string, Value>> {
    if key in ex.extensions && ex.extensions[key].Obj? then Some(ex.extensions[key].fields) else None
  }

  function ValueSetState(ex: MessageExample): Option<map<string, Value>> {
    AsMap(ex, "x-mock-set-state")
  }

  /** x-mock-match wins over its deprecated alias; an absent or malformed match has no conditions. */
  function ValueMatch(ex: MessageExample): Match {
    var key := if "x-mock-match" in ex.extensions then "x-mock-match" else "x-mock-params-match";
    AsMap(ex, key).GetOr(map[])
  }

  // ----- sources of one emission -----

  function EnvSource(env: map<string, string>): DataSource {
    path =>
      var parts := SplitPath(path);
      if |parts| == 1 && parts[0] in env then Some(Str(env[parts[0]])) else None
  }

  function EventSource(name: string, data: Option<map<string, Value>>): DataSource {
    path =>
      if path == "name" then NonEmptyText(name)
      else if path == "data" then (if data.Some? then Some(Obj(data.value)) else None)
      else StateGet(data.GetOr(map[]), path)
  }

  function FixedSources(state: map<string, Value>, env: map<string, string>, name: string,
                        data: Option<map<string, Value>>): (sources: Sources)
    ensures CONNECTION !in sources
  {
    map[STATE := StateSource(state), "env" := EnvSource(env), "event" := EventSource(name, data)]
  }

  function WithConnection(fixed: Sources, info: ConsumerInfo): Sources {
    fixed[CONNECTION := ConnectionSource(ConnectionContext(info.connectionID, info.channel, info.path, info.query,
        info.headers))]
  }

  function TemplaterOf(sources: Sources, lib: Library): Templater {
    Templater(expr => Evaluate(expr, sources), lib.marshal)
  }

  // ----- what is promised -----

  /** Set-state runs once, in some visiting order, unless the example is skipped or has none. */
  ghost predicate StateStep(before: Store, after: Store, ex: MessageExample, t: Templater, prefix: string,
                            parse: Parse) {
    if ValueSkip(ex) || ValueSetState(ex).None? then after == before
    else exists order :: Visits(order, ValueSetState(ex).value, t, parse) && Outcome(before, after, prefix, order, t)
  }

  ghost predicate IsBodyOf(body: string, ex: MessageExample, t: Templater, lib: Library) {
    var payload := if ex.payload.Null? then Obj(map[]) else ex.payload;
    exists v :: Templated(payload, t, 0, Ok(v)) && lib.marshal(v) == Some(body)
  }

  ghost predicate RenderFails(ex: MessageExample, t: Templater, lib: Library) {
    var payload := if ex.payload.Null? then Obj(map[]) else ex.payload;
    exists r :: Templated(payload, t, 0, r) && (r.Err? || lib.marshal(r.value).None?)
  }

  /** The consumers of an address, each once, and those of them that were written to. */
  ghost predicate ListsConsumers(candidates: seq<ConsumerInfo>, v: View, address: string) {
    && (forall info :: info in candidates ==> IsConsumer(info, v, address))
    && IdsOf(candidates, Ws) == Listening(v, address)
    && IdsOf(candidates, SignalR) == Streaming(v)
  }

  ghost predicate ChoosesMatching(chosen: seq<ConsumerInfo>, candidates: seq<ConsumerInfo>, bucket: Match,
                                  fixed: Sources, lib: Library) {
    forall info :: info in chosen <==> info in candidates && Matched(bucket, WithConnection(fixed, info), lib)
  }

  /** What became of one example. */
  datatype Report =
    | Withheld
    | Broadcast(body: string)
    | PerConnection(body: string, candidates: seq<ConsumerInfo>, chosen: seq<ConsumerInfo>)
    | Targeted(body: string, sent: bool)

  datatype Writes = Writes(w: seq<WR.WsWrite>, s: seq<SR.Write>)

  /** One push: to the raw connection of that id if there is one, otherwise to the hub connection of that id. */
  ghost predicate PushedTo(out: Writes, v: View, id: string, body: string) {
    if id in v.wsConns then out == Writes([WR.WsWrite(id, body)], [])
    else
      && out.w == []
      && if v.hub.Some? && id in v.hub.value.conns
         then SR.Delivers(out.s, v.hub.value.conns, {id}, v.hub.value.channelID, body, v.hub.value.channelID)
         else out.s == []
  }

  /**
   * What one emission fixes before its first example: consumers, recipient if there is only one, and captured
   * sources.
   */
  datatype Emission = Emission(address: string, view: View, target: Option<ConsumerInfo>, fixed: Sources,
                               lib: Library, prefix: string, parse: Parse)

  /** The sources of the first phase: a single recipient is present in it already. */
  function FirstPhase(e: Emission): Sources {
    if e.target.Some? then WithConnection(e.fixed, e.target.value) else e.fixed
  }

  /** The report on one example and everything it did: the state before and after, and the writes. */
  ghost predicate Explains(ex: MessageExample, report: Report, out: Writes, before: Store, after: Store, e: Emission) {
    var pm, t := ValueMatch(ex), TemplaterOf(FirstPhase(e), e.lib);
    if !Matched(CommonPart(pm), FirstPhase(e), e.lib) then
      report == Withheld && out == Writes([], []) && after == before
    else
      && StateStep(before, after, ex, t, e.prefix, e.parse)
      && if report.Withheld? then (ValueSkip(ex) || RenderFails(ex, t, e.lib)) && out == Writes([], [])
         else !ValueSkip(ex) && IsBodyOf(report.body, ex, t, e.lib) && Sends(report, out, pm, e)
  }

  /** Where a rendered body goes. */
  ghost predicate Sends(report: Report, out: Writes, pm: Match, e: Emission) {
    match report
    case Withheld => false
    case Broadcast(body) =>
      && e.target.None? && ConnectionPart(pm) == map[]
      && Broadcasts(out.w, out.s, e.view, e.address, body)
    case PerConnection(body, candidates, chosen) =>
      && e.target.None? && ConnectionPart(pm) != map[]
      && ListsConsumers(candidates, e.view, e.address)
      && ChoosesMatching(chosen, candidates, ConnectionPart(pm), e.fixed, e.lib)
      && Reaches(out.w, out.s, e.view, IdsOf(chosen, Ws), IdsOf(chosen, SignalR), body)
    case Targeted(body, sent) =>
      && e.target.Some?
      && (sent <==> Matched(pm, FirstPhase(e), e.lib))
      && if sent then PushedTo(out, e.view, e.target.value.connectionID, body) else out == Writes([], [])
  }

  function AllW(outs: seq<Writes>): seq<WR.WsWrite> {
    if outs == [] then [] else AllW(outs[..|outs| - 1]) + outs[|outs| - 1].w
  }

  function AllS(outs: seq<Writes>): seq<SR.Write> {
    if outs == [] then [] else AllS(outs[..|outs| - 1]) + outs[|outs| - 1].s
  }

  /**
   * Recipients are exact: with connection conditions and a rendered body, the consumers written to are those
   * for which the whole unsplit match holds over the captured sources.
   */
  lemma RecipientsAreExact(ex: MessageExample, report: Report, out: Writes, before: Store, after: Store, e: Emission)
    requires CONNECTION !in e.fixed && e.target.None?
    requires Explains(ex, report, out, before, after, e) && report.PerConnection?
    ensures forall info :: info in report.chosen <==>
              info in report.candidates && Matched(ValueMatch(ex), WithConnection(e.fixed, info), e.lib)
    ensures !Hides(ValueMatch(ex))
  {
    hide Matched, Hides, IsBodyOf, StateStep, ListsConsumers, Reaches, ValueMatch, CommonPart, ConnectionPart,
      ValueSkip;
    var pm := ValueMatch(ex);
    forall info: ConsumerInfo
      ensures Matched(ConnectionPart(pm), WithConnection(e.fixed, info), e.lib)
              <==> !Hides(pm) && Matched(pm, WithConnection(e.fixed, info), e.lib)
    {
      TwoPhasesAreExact(pm, e.fixed, WithConnection(e.fixed, info)[CONNECTION], e.lib);
    }
    NothingHidden(pm, e.fixed, e.lib);
  }

  /** With no connection conditions the general loop chooses every consumer of the address. */
  lemma LoopReachesEveryone(candidates: seq<ConsumerInfo>, chosen: seq<ConsumerInfo>, v: View, address: string,
                            fixed: Sources, lib: Library)
    requires ListsConsumers(candidates, v, address) && ChoosesMatching(chosen, candidates, map[], fixed, lib)
    ensures IdsOf(chosen, Ws) == Listening(v, address) && IdsOf(chosen, SignalR) == Streaming(v)
  {
    hide IsConsumer;
    assert forall info :: info in chosen <==> info in candidates;
  }

  /**
   * The broadcast shortcut replaces the general loop: every consumer satisfies the unsplit match, and whatever the
   * loop over all candidates would write, the shortcut writes, exactly when a stream is open or the hub is empty.
   */
  lemma ShortcutIsExact(ex: MessageExample, report: Report, out: Writes, before: Store, after: Store, e: Emission,
                        candidates: seq<ConsumerInfo>, chosen: seq<ConsumerInfo>, loop: Writes)
    requires CONNECTION !in e.fixed
    requires Explains(ex, report, out, before, after, e) && report.Broadcast?
    requires ListsConsumers(candidates, e.view, e.address)
    requires ChoosesMatching(chosen, candidates, ConnectionPart(ValueMatch(ex)), e.fixed, e.lib)
    requires Reaches(loop.w, loop.s, e.view, IdsOf(chosen, Ws), IdsOf(chosen, SignalR), report.body)
    ensures forall info :: Matched(ValueMatch(ex), WithConnection(e.fixed, info), e.lib)
    ensures multiset(out.w) == multiset(loop.w)
    ensures multiset(out.s) == multiset(loop.s) <==>
              e.view.hub.None? || Streaming(e.view) != {} || e.view.hub.value.conns == map[]
  {
    hide Hides, IsBodyOf, StateStep, Reaches, Broadcasts, Judge, ValueMatch, ReferencesConnection, ListsConsumers,
      ChoosesMatching;
    var pm := ValueMatch(ex);
    forall info: ConsumerInfo
      ensures Matched(pm, WithConnection(e.fixed, info), e.lib)
    {
      TwoPhasesAreExact(pm, e.fixed, WithConnection(e.fixed, info)[CONNECTION], e.lib);
    }
    LoopReachesEveryone(candidates, chosen, e.view, e.address, e.fixed, e.lib);
    BroadcastAgreesWithLoop(e.view, e.address, report.body, out.w, out.s, loop.w, loop.s);
  }

  lemma NothingHidden(pm: Match, fixed: Sources, lib: Library)
    requires CONNECTION !in fixed && Matched(CommonPart(pm), fixed, lib)
    ensures !Hides(pm)
  {
    hide Judge;
    forall expr | expr in pm
      ensures !HidesConnection(expr, pm[expr])
    {
      HiddenIsCommon(expr, pm[expr]);
      if expr in CommonPart(pm) {
        JudgedWithout(expr, pm[expr], fixed, _ => None, lib);
      }
    }
  }

  /**
   * An example withheld by its common conditions had no consumer satisfying its whole match, unless it hides a
   * reference.
   */
  lemma WithheldIsExact(ex: MessageExample, fixed: Sources, lib: Library, info: ConsumerInfo)
    requires CONNECTION !in fixed && !Matched(CommonPart(ValueMatch(ex)), fixed, lib)
    ensures Hides(ValueMatch(ex)) || !Matched(ValueMatch(ex), WithConnection(fixed, info), lib)
  {
    TwoPhasesAreExact(ValueMatch(ex), fixed, WithConnection(fixed, info)[CONNECTION], lib);
  }

  // ----- the bus as a value -----

  /** Connections and logs of the raw registry and of every hub. */
  datatype BusState = BusState(wsConns: map<string, WR.WsConnection>, wsLog: seq<WR.WsWrite>,
                               hubConns: seq<SR.Connections>, hubLogs: seq<seq<SR.Write>>)

  ghost function StateOf(bus: HubManager): (st: BusState)
    reads bus.Repr()
    ensures |st.hubConns| == |st.hubLogs| == |bus.hubs|
  {
    BusState(if bus.ws == null then map[] else bus.ws.byID, if bus.ws == null then [] else bus.ws.log,
             seq(|bus.hubs|, i requires 0 <= i < |bus.hubs| reads bus.Repr() => ConnsOf(bus, i)),
             seq(|bus.hubs|, i requires 0 <= i < |bus.hubs| reads bus.Repr() => LogOf(bus, i)))
  }

  ghost function ConnsOf(bus: HubManager, i: nat): SR.Connections
    requires i < |bus.hubs|
    reads bus.Repr()
  {
    assert bus.hubs[i] in bus.hubs;
    bus.hubs[i].conns.conns
  }

  ghost function LogOf(bus: HubManager, i: nat): seq<SR.Write>
    requires i < |bus.hubs|
    reads bus.Repr()
  {
    assert bus.hubs[i] in bus.hubs;
    bus.hubs[i].conns.log
  }

  ghost function OwnerOf(hubs: seq<Hub>, address: string): (owner: Option<(nat, string)>)
    ensures owner.Some? ==> owner.value.0 < |hubs| && Owns(hubs[owner.value.0], owner.value.1, address)
    ensures owner.None? ==> forall i, c :: 0 <= i < |hubs| ==> !Owns(hubs[i], c, address)
  {
    if exists i: nat, c :: i < |hubs| && Owns(hubs[i], c, address) then
      var i: nat, c :| i < |hubs| && Owns(hubs[i], c, address);
      Some((i, c))
    else None
  }

  ghost function ViewIn(st: BusState, hubs: seq<Hub>, address: string): View
    requires |st.hubConns| == |hubs|
  {
    var owner := OwnerOf(hubs, address);
    View(st.wsConns, if owner.None? then None else Some(HubChannel(st.hubConns[owner.value.0], owner.value.1)))
  }

  ghost function ViewOf(bus: HubManager, address: string): View
    reads bus.Repr()
  {
    ViewIn(StateOf(bus), bus.hubs, address)
  }

  /** The logs grew by exactly `out`, that of the raw registry and that of the hub owning the address. */
  ghost predicate Grew(before: BusState, after: BusState, hubs: seq<Hub>, address: string, out: Writes)
    requires |before.hubLogs| == |after.hubLogs| == |hubs|
  {
    && after.wsConns == before.wsConns && after.hubConns == before.hubConns
    && after.wsLog == before.wsLog + out.w
    && forall i :: 0 <= i < |hubs| ==>
        after.hubLogs[i] == before.hubLogs[i] + if OwnsSome(hubs[i], address) then out.s else []
  }

  lemma GrewByNothing(st: BusState, hubs: seq<Hub>, address: string)
    requires |st.hubLogs| == |hubs|
    ensures Grew(st, st, hubs, address, Writes([], []))
  {
  }

  lemma GrewMore(a: BusState, b: BusState, c: BusState, hubs: seq<Hub>, address: string, out: Writes, more: Writes)
    requires |a.hubLogs| == |b.hubLogs| == |c.hubLogs| == |hubs|
    requires Grew(a, b, hubs, address, out) && Grew(b, c, hubs, address, more)
    ensures Grew(a, c, hubs, address, Writes(out.w + more.w, out.s + more.s))
  {
  }

  lemma ViewIsApart(bus: HubManager, address: string)
    requires bus.Valid()
    ensures ApartIds(ViewOf(bus, address))
  {
    var owner := OwnerOf(bus.hubs, address);
    assert owner.Some? ==> bus.hubs[owner.value.0] in bus.hubs;
  }

  lemma OwnerIsUnique(bus: HubManager, address: string)
    requires bus.UniqueAddresses()
    ensures var owner := OwnerOf(bus.hubs, address);
            forall h, c :: bus.Owned(address, h, c) <==>
                owner.Some? && bus.hubs[owner.value.0] == h && owner.value.1 == c
  {
    var owner := OwnerOf(bus.hubs, address);
    assert owner.Some? ==> bus.hubs[owner.value.0] in bus.hubs;
  }

  /** What the bus promises about its logs, as a statement about its state. */
  lemma Noted(bus: HubManager, before: BusState, address: string, w: seq<WR.WsWrite>, s: seq<SR.Write>)
    requires |before.hubConns| == |before.hubLogs| == |bus.hubs|
    requires forall i :: 0 <= i < |bus.hubs| ==>
               && ConnsOf(bus, i) == before.hubConns[i]
               && LogOf(bus, i) == before.hubLogs[i] + if OwnsSome(bus.hubs[i], address) then s else []
    requires before.wsConns == StateOf(bus).wsConns && StateOf(bus).wsLog == before.wsLog + w
    ensures Grew(before, StateOf(bus), bus.hubs, address, Writes(w, s))
  {
    hide OwnsSome;
    assert StateOf(bus).hubConns == before.hubConns;
  }

  /** What the bus promises of one push, as a statement about the view of the address. */
  lemma PushSeen(bus: HubManager, address: string, id: string, body: string, w: seq<WR.WsWrite>, s: seq<SR.Write>)
    requires bus.UniqueAddresses()
    requires if bus.ws != null && id in bus.ws.byID then w == [WR.WsWrite(id, body)] && s == []
             else w == [] && forall h, c :: bus.Owned(address, h, c) ==>
                    if id in h.conns.conns then SR.Delivers(s, h.conns.conns, {id}, c, body, c) else s == []
    requires (forall h, c :: !bus.Owned(address, h, c)) ==> s == []
    ensures PushedTo(Writes(w, s), ViewOf(bus, address), id, body)
  {
    hide SR.Delivers, Owns;
    OwnerIsUnique(bus, address);
    var owner := OwnerOf(bus.hubs, address);
    if owner.Some? {
      assert bus.Owned(address, bus.hubs[owner.value.0], owner.value.1);
    }
  }

  lemma BroadcastSeen(bus: HubManager, address: string, body: string, w: seq<WR.WsWrite>, s: seq<SR.Write>)
    requires bus.UniqueAddresses()
    requires forall h, c :: bus.Owned(address, h, c) ==> SR.Delivers(s, h.conns.conns, h.conns.conns.Keys, c, body, c)
    requires (forall h, c :: !bus.Owned(address, h, c)) ==> s == []
    requires if bus.ws == null then w == [] else WR.Reached(w, WR.OnChannel(bus.ws.byID, address), body)
    ensures Broadcasts(w, s, ViewOf(bus, address), address, body)
  {
    hide SR.Delivers, Owns;
    OwnerIsUnique(bus, address);
    var owner := OwnerOf(bus.hubs, address);
    if owner.Some? {
      assert bus.Owned(address, bus.hubs[owner.value.0], owner.value.1);
    }
  }

  class MessageDelivery {
    const renderer: ExampleEngine
    const bus: HubManager
    const lib: Library
    const env: map<string, string>

    constructor (renderer: ExampleEngine, bus: HubManager, lib: Library, env: map<string, string>)
      ensures this.renderer == renderer && this.bus == bus && this.lib == lib && this.env == env
    {
      this.renderer, this.bus, this.lib, this.env := renderer, bus, lib, env;
    }

    ghost predicate Valid()
      reads renderer.stateStore, bus.Repr()
    {
      renderer.stateStore.Valid() && bus.Valid() && bus.UniqueAddresses()
    }

    lemma StoreIsApart()
      ensures renderer.stateStore !in bus.Repr()
    {
      assert renderer.stateStore !in bus.Registries();
    }

    method RenderExample(ex: MessageExample, t: Templater, prefix: string) returns (body: Option<string>)
      requires Valid() && t.marshal == lib.marshal
      modifies renderer.stateStore
      ensures Valid() && StateOf(bus) == old(StateOf(bus))
      ensures StateStep(old(renderer.stateStore.state), renderer.stateStore.state, ex, t, prefix, renderer.parseFloat)
      ensures if body.Some? then !ValueSkip(ex) && IsBodyOf(body.value, ex, t, lib)
              else ValueSkip(ex) || RenderFails(ex, t, lib)
    {
      hide Templated, Visits, Outcome, StateOf, Manager.Valid, HubManager.Valid, HubManager.UniqueAddresses;
      StoreIsApart();
      if ValueSkip(ex) {
        return None;
      }
      var stateMap := ValueSetState(ex);
      if stateMap.Some? {
        ghost var order := renderer.ApplySetState(stateMap.value, t, prefix);
      }
      var payload := if ex.payload.Null? then Obj(map[]) else ex.payload;
      var resolved := EvaluateValue(payload, t);
      if resolved.Err? {
        return None;
      }
      body := lib.marshal(resolved.value);
    }

    method EvaluateConnectionBucket(bucket: Match, fixed: Sources, candidate: ConsumerInfo)
      returns (ok: bool, broken: bool)
      ensures ok && !broken <==> Matched(bucket, WithConnection(fixed, candidate), lib)
    {
      if |bucket| == 0 {
        return true, false;
      }
      ok, broken := EvaluateParamsMatch(bucket, WithConnection(fixed, candidate), lib);
    }

    method PushOne(candidate: ConsumerInfo, address: string, body: string) returns (ghost out: Writes)
      requires Valid()
      modifies bus.Repr()
      ensures Valid() && Grew(old(StateOf(bus)), StateOf(bus), bus.hubs, address, out)
      ensures PushedTo(out, ViewOf(bus, address), candidate.connectionID, body)
    {
      hide SR.Delivers, WR.Reached, Owns, OwnsSome, Grew, PushedTo, ViewIn, HubManager.Valid,
        HubManager.UniqueAddresses;
      ghost var before := StateOf(bus);
      ghost var w, s := bus.PushTo(candidate, address, body);
      out := Writes(w, s);
      PushSeen(bus, address, candidate.connectionID, body, w, s);
      Noted(bus, before, address, w, s);
    }

    method Broadcast(address: string, body: string) returns (ghost out: Writes)
      requires Valid()
      modifies bus.Repr()
      ensures Valid() && Grew(old(StateOf(bus)), StateOf(bus), bus.hubs, address, out)
      ensures Broadcasts(out.w, out.s, ViewOf(bus, address), address, body)
    {
      hide SR.Delivers, WR.Reached, WR.OnChannel, Owns, OwnsSome, Grew, Broadcasts, ViewIn, HubManager.Valid,
        HubManager.UniqueAddresses;
      ghost var before := StateOf(bus);
      ghost var s := bus.SignalRPush(address, body);
      ghost var w := bus.WSBroadcast(address, body);
      out := Writes(w, s);
      BroadcastSeen(bus, address, body, w, s);
      Noted(bus, before, address, w, s);
    }

    method Candidates(address: string) returns (candidates: seq<ConsumerInfo>)
      requires Valid()
      ensures ListsConsumers(candidates, ViewOf(bus, address), address)
      ensures forall i, j :: 0 <= i < j < |candidates| ==> candidates[i].connectionID != candidates[j].connectionID
    {
      hide Owns, HasOpenStream, FromWs, Distinct;
      OwnerIsUnique(bus, address);
      candidates := bus.Candidates(address);
    }

    /** The general loop: the bucket is evaluated against every candidate of the channel. */
    method PushToMatching(bucket: Match, fixed: Sources, address: string, body: string)
      returns (ghost candidates: seq<ConsumerInfo>, ghost chosen: seq<ConsumerInfo>, ghost out: Writes)
      requires Valid()
      modifies bus.Repr()
      ensures Valid() && Grew(old(StateOf(bus)), StateOf(bus), bus.hubs, address, out)
      ensures ListsConsumers(candidates, ViewOf(bus, address), address)
      ensures ChoosesMatching(chosen, candidates, bucket, fixed, lib)
      ensures Reaches(out.w, out.s, ViewOf(bus, address), IdsOf(chosen, Ws), IdsOf(chosen, SignalR), body)
    {
      hide Matched, Reaches, PushedTo, ListsConsumers, ChoosesMatching, ApartIds, Grew, StateOf, ViewIn, Selected,
        Pushed, HubManager.Valid, HubManager.UniqueAddresses;
      ghost var before, v := StateOf(bus), ViewOf(bus, address);
      ViewIsApart(bus, address);
      var all := Candidates(address);
      candidates, chosen, out := all, [], Writes([], []);
      NonePushed(before, bus.hubs, address, v, all, bucket, fixed, lib, body);
      for i := 0 to |all|
        invariant Valid()
        invariant Pushed(before, StateOf(bus), bus.hubs, address, v, all, i, chosen, out, bucket, fixed, lib, body)
      {
        var ok, broken := EvaluateConnectionBucket(bucket, fixed, all[i]);
        if broken || !ok {
          PassedOver(before, StateOf(bus), bus.hubs, address, v, all, i, chosen, out, bucket, fixed, lib, body);
          continue;
        }
        ghost var pre := StateOf(bus);
        ghost var more := PushOne(all[i], address, body);
        PushedOneMore(before, pre, StateOf(bus), bus.hubs, address, v, all, i, chosen, out, more, bucket, fixed, lib,
            body);
        out := Writes(out.w + more.w, out.s + more.s);
        chosen := chosen + [all[i]];
      }
      AllPushed(before, StateOf(bus), bus.hubs, address, v, all, chosen, out, bucket, fixed, lib, body);
    }

    /** One pass of the emission loop. */
    method DeliverOne(ex: MessageExample, address: string, prefix: string, fixed: Sources, target: Option<ConsumerInfo>)
      returns (ghost report: Report, ghost out: Writes)
      requires Valid()
      modifies renderer.stateStore, bus.Repr()
      ensures Valid() && Grew(old(StateOf(bus)), StateOf(bus), bus.hubs, address, out)
      ensures Explains(ex, report, out, old(renderer.stateStore.state), renderer.stateStore.state,
                       Emission(address, old(ViewOf(bus, address)), target, fixed, lib, prefix, renderer.parseFloat))
    {
      hide Explains, Matched, StateStep, IsBodyOf, RenderFails, Sends, Grew, StateOf, ViewIn, Manager.Valid,
        HubManager.Valid, HubManager.UniqueAddresses, WithConnection, ValueMatch, ValueSkip, CommonPart,
        ConnectionPart, FirstPhase, TemplaterOf, Judge;
      StoreIsApart();
      ghost var before := StateOf(bus);
      ghost var e := Emission(address, ViewOf(bus, address), target, fixed, lib, prefix, renderer.parseFloat);
      GrewByNothing(before, bus.hubs, address);
      out := Writes([], []);
      var common, connection := PartitionConnectionConditions(ValueMatch(ex));
      var sources := if target.Some? then WithConnection(fixed, target.value) else fixed;
      NoConditions(common, sources, lib);
      FirstPhaseIs(e, sources);
      if |common| > 0 {
        var ok, broken := EvaluateParamsMatch(common, sources, lib);
        if broken || !ok {
          report := Withheld;
          Stopped(ex, renderer.stateStore.state, e);
          return;
        }
      }
      ghost var state := renderer.stateStore.state;
      var body := RenderExample(ex, TemplaterOf(sources, lib), prefix);
      if body.None? {
        report := Withheld;
        NotRendered(ex, state, renderer.stateStore.state, e);
        return;
      }
      report, out := Send(body.value, connection, address, fixed, target, ValueMatch(ex), e);
      SentOn(ex, report, out, state, renderer.stateStore.state, e);
    }

    /** The rest of a pass, once a body is rendered. */
    method Send(body: string, connection: Match, address: string, fixed: Sources, target: Option<ConsumerInfo>,
                ghost pm: Match, ghost e: Emission)
      returns (ghost report: Report, ghost out: Writes)
      requires Valid() && connection == ConnectionPart(pm)
      requires e.address == address && e.fixed == fixed && e.target == target && e.lib == lib
      requires e.view == ViewOf(bus, address)
      requires Matched(CommonPart(pm), FirstPhase(e), lib)
      modifies bus.Repr()
      ensures Valid() && Grew(old(StateOf(bus)), StateOf(bus), bus.hubs, address, out)
      ensures !report.Withheld? && report.body == body && Sends(report, out, pm, e)
    {
      hide Matched, ListsConsumers, ChoosesMatching, Reaches, Broadcasts, PushedTo, Grew, StateOf,
        ViewIn, HubManager.Valid, HubManager.UniqueAddresses, WithConnection, CommonPart, ConnectionPart;
      ghost var before := StateOf(bus);
      GrewByNothing(before, bus.hubs, address);
      out := Writes([], []);
      if target.Some? {
        SplitIsExactWithConnection(pm, FirstPhase(e), lib);
        var ok, broken := EvaluateConnectionBucket(connection, fixed, target.value);
        report := Targeted(body, ok && !broken);
        if broken || !ok {
          return;
        }
        out := PushOne(target.value, address, body);
        SameView(before, StateOf(bus), StateOf(bus), bus.hubs, address, out, out);
        return;
      }
      if |connection| == 0 {
        report := Report.Broadcast(body);
        out := Broadcast(address, body);
        SameView(before, StateOf(bus), StateOf(bus), bus.hubs, address, out, out);
        return;
      }
      ghost var candidates, chosen;
      candidates, chosen, out := PushToMatching(connection, fixed, address, body);
      SameView(before, StateOf(bus), StateOf(bus), bus.hubs, address, out, out);
      report := PerConnection(body, candidates, chosen);
    }

    /** One emission: the namespace and the environment are captured once, before the first example. */
    method DeliverExample(examples: seq<MessageExample>, address: string, prefix: string, name: string,
                          payload: Option<map<string, Value>>, target: Option<ConsumerInfo>)
      returns (ghost reports: seq<Report>, ghost outs: seq<Writes>, ghost states: seq<Store>)
      requires Valid()
      modifies renderer.stateStore, bus.Repr()
      ensures Valid() && Grew(old(StateOf(bus)), StateOf(bus), bus.hubs, address, Writes(AllW(outs), AllS(outs)))
      ensures |states| == |examples| + 1 && |reports| == |outs| == |examples|
      ensures states[0] == old(renderer.stateStore.state) && states[|examples|] == renderer.stateStore.state
      ensures var fixed := FixedSources(NamespaceOf(states[0], prefix), env, name, payload);
              var e := Emission(address, old(ViewOf(bus, address)), target, fixed, lib, prefix, renderer.parseFloat);
              forall i :: 0 <= i < |examples| ==>
                  Explains(examples[i], reports[i], outs[i], states[i], states[i + 1], e)
    {
      hide Explains, Grew, StateOf, ViewIn, Manager.Valid, HubManager.Valid, HubManager.UniqueAddresses;
      ghost var before, v := StateOf(bus), ViewOf(bus, address);
      GrewByNothing(before, bus.hubs, address);
      var snapshot := renderer.stateStore.GetNamespace(prefix);
      var fixed := FixedSources(snapshot.GetOr(map[]), env, name, payload);
      ghost var e := Emission(address, v, target, fixed, lib, prefix, renderer.parseFloat);
      reports, outs, states := [], [], [renderer.stateStore.state];
      for i := 0 to |examples|
        invariant Valid() && Grew(before, StateOf(bus), bus.hubs, address, Writes(AllW(outs), AllS(outs)))
        invariant |states| == i + 1 && |reports| == |outs| == i
        invariant states[0] == old(renderer.stateStore.state) && states[i] == renderer.stateStore.state
        invariant forall j :: 0 <= j < i ==> Explains(examples[j], reports[j], outs[j], states[j], states[j + 1], e)
      {
        ghost var pre := StateOf(bus);
        SameView(before, pre, pre, bus.hubs, address, Writes(AllW(outs), AllS(outs)), Writes([], []));
        ghost var report, out := DeliverOne(examples[i], address, prefix, fixed, target);
        GrewMore(before, pre, StateOf(bus), bus.hubs, address, Writes(AllW(outs), AllS(outs)), out);
        AllSnoc(outs, out);
        reports, outs, states := reports + [report], outs + [out], states + [renderer.stateStore.state];
      }
    }
  }

  function NamespaceOf(store: Store, prefix: string): map<string, Value> {
    if prefix in store then store[prefix] else map[]
  }

  lemma FirstPhaseIs(e: Emission, sources: Sources)
    requires sources == if e.target.Some? then WithConnection(e.fixed, e.target.value) else e.fixed
    ensures FirstPhase(e) == sources && TemplaterOf(sources, e.lib).marshal == e.lib.marshal
  {
  }

  lemma Stopped(ex: MessageExample, state: Store, e: Emission)
    requires !Matched(CommonPart(ValueMatch(ex)), FirstPhase(e), e.lib)
    ensures Explains(ex, Withheld, Writes([], []), state, state, e)
  {
  }

  lemma NotRendered(ex: MessageExample, before: Store, after: Store, e: Emission)
    requires Matched(CommonPart(ValueMatch(ex)), FirstPhase(e), e.lib)
    requires StateStep(before, after, ex, TemplaterOf(FirstPhase(e), e.lib), e.prefix, e.parse)
    requires ValueSkip(ex) || RenderFails(ex, TemplaterOf(FirstPhase(e), e.lib), e.lib)
    ensures Explains(ex, Withheld, Writes([], []), before, after, e)
  {
    hide Matched, StateStep, ValueSkip, RenderFails;
  }

  lemma SentOn(ex: MessageExample, report: Report, out: Writes, before: Store, after: Store, e: Emission)
    requires Matched(CommonPart(ValueMatch(ex)), FirstPhase(e), e.lib)
    requires StateStep(before, after, ex, TemplaterOf(FirstPhase(e), e.lib), e.prefix, e.parse)
    requires !report.Withheld? && !ValueSkip(ex) && IsBodyOf(report.body, ex, TemplaterOf(FirstPhase(e), e.lib), e.lib)
    requires Sends(report, out, ValueMatch(ex), e)
    ensures Explains(ex, report, out, before, after, e)
  {
    hide Matched, StateStep, ValueSkip, IsBodyOf, Sends;
  }

  lemma NoConditions(pm: Match, sources: Sources, lib: Library)
    ensures |pm| == 0 ==> Matched(pm, sources, lib)
  {
  }

  lemma AllSnoc(outs: seq<Writes>, out: Writes)
    ensures AllW(outs + [out]) == AllW(outs) + out.w && AllS(outs + [out]) == AllS(outs) + out.s
  {
    assert (outs + [out])[..|outs|] == outs;
  }

  /** The first `i` candidates are dealt with: those that match were reached and chosen. */
  ghost predicate Pushed(before: BusState, now: BusState, hubs: seq<Hub>, address: string, v: View,
                         all: seq<ConsumerInfo>, i: nat,
                         chosen: seq<ConsumerInfo>, out: Writes, bucket: Match, fixed: Sources, lib: Library,
                         body: string)
    requires i <= |all| && |before.hubLogs| == |now.hubLogs| == |hubs|
  {
    && Grew(before, now, hubs, address, out)
    && Selected(chosen, all[..i], bucket, fixed, lib)
    && Reaches(out.w, out.s, v, IdsOf(chosen, Ws), IdsOf(chosen, SignalR), body)
  }

  ghost predicate Selected(chosen: seq<ConsumerInfo>, seen: seq<ConsumerInfo>, bucket: Match, fixed: Sources,
                           lib: Library) {
    forall info :: info in chosen <==> info in seen && Matched(bucket, WithConnection(fixed, info), lib)
  }

  lemma NonePushed(before: BusState, hubs: seq<Hub>, address: string, v: View, all: seq<ConsumerInfo>,
                   bucket: Match, fixed: Sources, lib: Library, body: string)
    requires |before.hubLogs| == |hubs|
    ensures Pushed(before, before, hubs, address, v, all, 0, [], Writes([], []), bucket, fixed, lib, body)
  {
    ReachesNobody(v, body);
    GrewByNothing(before, hubs, address);
  }

  lemma PassedOver(before: BusState, now: BusState, hubs: seq<Hub>, address: string, v: View, all: seq<ConsumerInfo>,
                   i: nat,
                   chosen: seq<ConsumerInfo>, out: Writes, bucket: Match, fixed: Sources, lib: Library, body: string)
    requires i < |all| && |before.hubLogs| == |now.hubLogs| == |hubs|
    requires Pushed(before, now, hubs, address, v, all, i, chosen, out, bucket, fixed, lib, body)
    requires !Matched(bucket, WithConnection(fixed, all[i]), lib)
    ensures Pushed(before, now, hubs, address, v, all, i + 1, chosen, out, bucket, fixed, lib, body)
  {
    hide Matched, Reaches, Grew;
    assert all[..i + 1] == all[..i] + [all[i]];
  }

  lemma PushedOneMore(before: BusState, pre: BusState, now: BusState, hubs: seq<Hub>, address: string, v: View,
                      all: seq<ConsumerInfo>, i: nat, chosen: seq<ConsumerInfo>, out: Writes, more: Writes,
                      bucket: Match, fixed: Sources, lib: Library, body: string)
    requires i < |all| && |before.hubLogs| == |pre.hubLogs| == |now.hubLogs| == |hubs|
    requires |before.hubConns| == |pre.hubConns| == |now.hubConns| == |hubs|
    requires Pushed(before, pre, hubs, address, v, all, i, chosen, out, bucket, fixed, lib, body)
    requires v == ViewIn(before, hubs, address) && ApartIds(v) && ListsConsumers(all, v, address)
    requires forall j, k :: 0 <= j < k < |all| ==> all[j].connectionID != all[k].connectionID
    requires Matched(bucket, WithConnection(fixed, all[i]), lib)
    requires Grew(pre, now, hubs, address, more)
    requires PushedTo(more, ViewIn(now, hubs, address), all[i].connectionID, body)
    ensures Pushed(before, now, hubs, address, v, all, i + 1, chosen + [all[i]],
                   Writes(out.w + more.w, out.s + more.s), bucket, fixed, lib, body)
  {
    hide Matched, Reaches, Grew, ListsConsumers, ApartIds, PushedTo, ViewIn;
    assert all[..i + 1] == all[..i] + [all[i]];
    SameView(before, pre, now, hubs, address, out, more);
    GrewMore(before, pre, now, hubs, address, out, more);
    ReachOneMore(all, i, chosen, v, address, out, more, body);
  }

  lemma AllPushed(before: BusState, now: BusState, hubs: seq<Hub>, address: string, v: View, all: seq<ConsumerInfo>,
                  chosen: seq<ConsumerInfo>, out: Writes, bucket: Match, fixed: Sources, lib: Library, body: string)
    requires |before.hubLogs| == |now.hubLogs| == |hubs| == |before.hubConns| == |now.hubConns|
    requires Pushed(before, now, hubs, address, v, all, |all|, chosen, out, bucket, fixed, lib, body)
    ensures Grew(before, now, hubs, address, out) && ViewIn(before, hubs, address) == ViewIn(now, hubs, address)
    ensures ChoosesMatching(chosen, all, bucket, fixed, lib)
    ensures Reaches(out.w, out.s, v, IdsOf(chosen, Ws), IdsOf(chosen, SignalR), body)
  {
    hide Matched, Reaches, Grew, ViewIn;
    assert all[..|all|] == all;
    SameView(before, now, now, hubs, address, out, out);
  }

  lemma SameView(a: BusState, b: BusState, c: BusState, hubs: seq<Hub>, address: string, out: Writes, more: Writes)
    requires |a.hubLogs| == |b.hubLogs| == |c.hubLogs| == |hubs| == |a.hubConns| == |b.hubConns| == |c.hubConns|
    requires Grew(a, b, hubs, address, out) && (b == c || Grew(b, c, hubs, address, more))
    ensures ViewIn(a, hubs, address) == ViewIn(b, hubs, address) == ViewIn(c, hubs, address)
  {
  }

  lemma ReachOneMore(all: seq<ConsumerInfo>, i: nat, chosen: seq<ConsumerInfo>, v: View, address: string,
                     out: Writes, more: Writes, body: string)
    requires i < |all| && ApartIds(v) && ListsConsumers(all, v, address)
    requires forall j, k :: 0 <= j < k < |all| ==> all[j].connectionID != all[k].connectionID
    requires forall info :: info in chosen ==> info in all[..i]
    requires Reaches(out.w, out.s, v, IdsOf(chosen, Ws), IdsOf(chosen, SignalR), body)
    requires PushedTo(more, v, all[i].connectionID, body)
    ensures var longer := chosen + [all[i]];
            Reaches(out.w + more.w, out.s + more.s, v, IdsOf(longer, Ws), IdsOf(longer, SignalR), body)
  {
    hide Reaches, DescribesConnection, SR.Delivers, FromWs;
    var longer := chosen + [all[i]];
    assert all[i] in all;
    assert IsConsumer(all[i], v, address);
    ReachesOne(all[i], v, address, more.w, more.s, body);
    forall info | info in chosen
      ensures info.connectionID != all[i].connectionID
    {
      var j :| 0 <= j < i && all[j] == info;
    }
    ReachesMore(out.w, out.s, more.w, more.s, v, IdsOf(chosen, Ws), IdsOf(chosen, SignalR),
                IdsOf([all[i]], Ws), IdsOf([all[i]], SignalR), body);
    assert IdsOf(longer, Ws) == IdsOf(chosen, Ws) + IdsOf([all[i]], Ws);
    assert IdsOf(longer, SignalR) == IdsOf(chosen, SignalR) + IdsOf([all[i]], SignalR);
  }
}
