/** The per-(app, channel) registry over `ChannelState`, one call at a time. */
module Registry {
  import opened Prelude
  import opened ChannelSpec
  import opened ChannelState
  import opened Fanout

  datatype Key = Key(app: AppId, channel: ChannelName)

  datatype SubscribeOutcome = SubscribeOutcome(count: nat, presence: Option<PresenceJoin>, occupied: bool)
  datatype UnsubscribeOutcome = UnsubscribeOutcome(count: nat, presence: Option<PresenceLeave>, vacated: bool)

  /** The live joins of a channel; an absent entry has none. */
  ghost function At(joins: map<Key, seq<Join>>, k: Key): seq<Join>
  {
    if k in joins then joins[k] else []
  }

  ghost function Set(joins: map<Key, seq<Join>>, k: Key, js: seq<Join>): map<Key, seq<Join>>
  {
    if js == [] then joins - {k} else joins[k := js]
  }

  /** Setting one channel's joins leaves every other channel's as they were. */
  lemma SetAt(joins: map<Key, seq<Join>>, k: Key, js: seq<Join>, l: Key)
    ensures At(Set(joins, k, js), l) == if l == k then js else At(joins, l)
  {
  }

  /** A registered channel: occupied, well-formed, and announcing under its own key's name. */
  ghost predicate Entry(c: ChannelState, k: Key, js: seq<Join>, wire: Wire)
    reads c
  {
    c.Valid() && c.channel == k.channel && c.encode == EncoderFor(wire) && c.joins == js && js != []
  }

  /** The frame a registered channel's joins carry announces exactly its live joins. */
  lemma EntryAnnounces(c: ChannelState, k: Key, js: seq<Join>, wire: Wire)
    requires Entry(c, k, js, wire)
    ensures Announces(Roster(c.users), js)
    ensures c.encode(k.channel, Hash(c.users)) == wire(k.channel, Roster(c.users))
  {
    RosterAnnounces(js, c.users);
    EncodesRoster(wire, k.channel, c.users);
  }

  /** What a subscribe does to the channel it holds. */
  method SubscribeTo(state: ChannelState, wire: Wire, sock: SocketId, member: Option<Member>)
    returns (out: SubscribeOutcome)
    requires state.Valid() && state.encode == EncoderFor(wire)
    modifies state
    ensures state.Valid()
    ensures state.joins == Joined(old(state.joins), Join(sock, member)) && state.joins != []
    ensures out.count == |state.joins|
    ensures out.occupied <==> old(state.joins) == []
    ensures out.presence.Some? <==> member.Some?
    ensures member.Some? ==>
              && out.presence.value.member == member.value
              && (out.presence.value.firstForUser <==> Conns(state.joins, member.value.userId) == [sock])
              && out.presence.value.rosterFrame == wire(state.channel, Roster(state.users))
  {
    var wasEmpty := state.SubscriptionCount() == 0;
    var presence := state.Add(state.channel, sock, member);
    var count := state.SubscriptionCount();
    out := SubscribeOutcome(count, presence, wasEmpty && count == 1);
    EncodesRoster(wire, state.channel, state.users);
  }

  /** What an unsubscribe does to the channel it holds, before the prune. */
  method UnsubscribeFrom(state: ChannelState, sock: SocketId) returns (out: UnsubscribeOutcome)
    requires state.Valid()
    modifies state
    ensures state.Valid()
    ensures state.joins == Without(old(state.joins), sock)
    ensures out.count == |state.joins|
    ensures out.vacated <==> state.joins == []
    ensures var subs := Subs(old(state.joins));
            && (out.presence.Some? <==> sock in subs && subs[sock].Some?)
            && (out.presence.Some? ==>
                  && out.presence.value.userId == subs[sock].value.userId
                  && (out.presence.value.lastForUser <==> !OnRoster(state.joins, subs[sock].value.userId)))
  {
    var presence := state.Remove(sock);
    var count := state.SubscriptionCount();
    out := UnsubscribeOutcome(count, presence, count == 0);
  }

  class Registry {
    const wire: Wire
    var channels: map<Key, ChannelState>
    /** The live joins of every occupied channel. */
    ghost var joins: map<Key, seq<Join>>

    ghost predicate Valid()
      reads this, channels.Values
    {
      && joins.Keys == channels.Keys
      && (forall k :: k in channels ==> Entry(channels[k], k, joins[k], wire))
      && (forall k, l :: k in channels && l in channels && k != l ==> channels[k] != channels[l])
    }

    constructor (wire: Wire)
      ensures Valid() && this.wire == wire && joins == map[]
    {
      this.wire := wire;
      channels, joins := map[], map[];
    }

    method Subscribe(app: AppId, channel: ChannelName, sock: SocketId, member: Option<Member>)
      returns (out: SubscribeOutcome)
      requires Valid()
      modifies this, channels.Values
      ensures Valid() && fresh(channels.Values - old(channels.Values))
      ensures var k := Key(app, channel);
              var js := Joined(At(old(joins), k), Join(sock, member));
              && joins == Set(old(joins), k, js)
              && out.count == |js|
              && (out.occupied <==> At(old(joins), k) == [])
              && (out.presence.Some? <==> member.Some?)
              && (member.Some? ==> out.presence.value.member == member.value)
              && (member.Some? ==> (out.presence.value.firstForUser <==> Conns(js, member.value.userId) == [sock]))
              && (member.Some? ==> k in channels && out.presence.value.rosterFrame == wire(channel, Roster(channels[k].users)))
    {
      var key := Key(app, channel);
      var state := EntryOrDefault(key);
      out := SubscribeTo(state, wire, sock, member);
      Store(key, state);
    }

    method Unsubscribe(app: AppId, channel: ChannelName, sock: SocketId) returns (out: UnsubscribeOutcome)
      requires Valid()
      modifies this, channels.Values
      ensures Valid() && channels.Values <= old(channels.Values)
      ensures var k := Key(app, channel);
              var before, js := At(old(joins), k), Without(At(old(joins), k), sock);
              && joins == Set(old(joins), k, js)
              && out.count == |js|
              && (out.vacated <==> before != [] && js == [])
              && (out.presence.Some? <==> sock in Subs(before) && Subs(before)[sock].Some?)
              && (out.presence.Some? ==>
                    && out.presence.value.userId == Subs(before)[sock].value.userId
                    && (out.presence.value.lastForUser <==> !OnRoster(js, Subs(before)[sock].value.userId)))
    {
      var key := Key(app, channel);
      if key !in channels {
        return UnsubscribeOutcome(0, None, false);
      }
      var state := channels[key];
      out := UnsubscribeFrom(state, sock);
      Store(key, state);
    }

    /** Every entry but `key`'s is in order and is not `state`. */
    ghost predicate OthersOk(key: Key, state: ChannelState)
      reads this, channels.Values
    {
      && joins.Keys == channels.Keys
      && (forall k :: k in channels && k != key ==> channels[k] != state && Entry(channels[k], k, joins[k], wire))
      && (forall k, l :: k in channels && l in channels && k != l ==> channels[k] != channels[l])
    }

    method EntryOrDefault(key: Key) returns (state: ChannelState)
      requires Valid()
      ensures Valid() && OthersOk(key, state)
      ensures state.Valid() && state.channel == key.channel && state.encode == EncoderFor(wire)
      ensures state.joins == At(joins, key)
      ensures if key in channels then state == channels[key] else fresh(state)
    {
      if key in channels {
        state := channels[key];
      } else {
        state := new ChannelState(key.channel, wire);
      }
    }

    /** Leave `state` under its key, or prune the entry once it is empty. */
    method Store(key: Key, state: ChannelState)
      requires OthersOk(key, state)
      requires state.Valid() && state.channel == key.channel && state.encode == EncoderFor(wire)
      modifies this
      ensures Valid()
      ensures joins == Set(old(joins), key, state.joins)
      ensures channels == if state.joins == [] then old(channels) - {key} else old(channels)[key := state]
    {
      if state.SubscriptionCount() == 0 {
        channels := channels - {key};
      } else {
        channels := channels[key := state];
      }
      joins := Set(joins, key, state.joins);
      assert joins.Keys == channels.Keys;
      forall k | k in channels ensures Entry(channels[k], k, joins[k], wire) {
        if k != key {
          assert old(Entry(channels[k], k, joins[k], wire));
        }
      }
    }

    /** Exactly the channel's subscribers minus `except` are sent the frame once; an absent channel sends nothing. */
    method Broadcast(app: AppId, channel: ChannelName, frame: Frame, except: Option<SocketId>, mail: Mailboxes)
      requires Valid()
      modifies mail, channels.Values
      ensures Valid() && channels == old(channels) && joins == old(joins)
      ensures mail.boxes == Delivered(old(mail.boxes), Subs(At(joins, Key(app, channel))).Keys, frame, except)
    {
      var key := Key(app, channel);
      if key !in channels {
        return;
      }
      var f := channels[key].FanOut(frame, except);
      assert Targets(f) == channels[key].subscribers.Keys;
      mail.Send(f);
    }
  }
}
