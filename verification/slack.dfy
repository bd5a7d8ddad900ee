/**
 * The live-event filters of the chat integration: which "member joined
 * channel" events and which messages reach the ingestion callbacks.
 *
 * The callbacks, `ack` and the socket connection are not run; each handler
 * returns the effects it would perform, in order.
 */
module Slack {
  import opened Common

  /** A `member_joined_channel` event: who joined which channel. */
  datatype JoinEvent = JoinEvent(user: string, channel: string)

  /** A message event with the fields the filter reads and forwards. */
  datatype Message = Message(kind: string, channelType: string, channel: string, user: string,
                             text: string, ts: string, team: string)

  /** The arguments the message callback receives, in the order it receives them. */
  datatype MessageArgs = MessageArgs(channel: string, user: string, text: string, ts: string, team: string)

  /** An effect a handler performs. */
  datatype Effect = JoinCallback(channel: string) | Ack | MessageCallback(args: MessageArgs)

  /** The effects of one handler call and the value it returns (`None` for Python's bare `return`). */
  datatype Handled = Handled(effects: seq<Effect>, returned: Option<bool>)

  /**
   * The join handler: a join by the bot itself runs the join callback on the
   * channel, then acknowledges, then returns True; anybody else's join is
   * ignored without an acknowledgement.
   */
  function IndexHistory(botUserId: string, e: JoinEvent): (r: Handled)
    ensures |r.effects| > 0 <==> e.user == botUserId
    ensures r.returned.Some? <==> e.user == botUserId
    ensures e.user == botUserId ==> r.effects == [JoinCallback(e.channel), Ack] && r.returned == Some(true)
  {
    if e.user != botUserId then Handled([], None)
    else Handled([JoinCallback(e.channel), Ack], Some(true))
  }

  /** Only plain messages posted in public channels are forwarded. */
  predicate Forwarded(m: Message) {
    m.kind == "message" && m.channelType == "channel"
  }

  function ArgsOf(m: Message): MessageArgs {
    MessageArgs(m.channel, m.user, m.text, m.ts, m.team)
  }

  /** The message handler: forwards channel, user, text, timestamp and team, or does nothing. */
  function IndexMessage(m: Message): (r: seq<Effect>)
    ensures |r| <= 1
    ensures |r| == 1 <==> m.kind == "message" && m.channelType == "channel"
    ensures |r| == 1 ==> r[0].MessageCallback? && r[0].args.channel == m.channel && r[0].args.user == m.user
                         && r[0].args.text == m.text && r[0].args.ts == m.ts && r[0].args.team == m.team
  {
    if Forwarded(m) then [MessageCallback(ArgsOf(m))] else []
  }

  // ---------------------------------------------------------------------------
  // An event stream
  // ---------------------------------------------------------------------------

  datatype Event = Joined(join: JoinEvent) | Posted(message: Message)

  /** The effects of handling a stream of events one after another. */
  function Route(botUserId: string, events: seq<Event>): seq<Effect> {
    if |events| == 0 then []
    else
      var last := events[|events| - 1];
      Route(botUserId, events[..|events| - 1])
        + (match last
           case Joined(e) => IndexHistory(botUserId, e).effects
           case Posted(m) => IndexMessage(m))
  }

  /** The channels the join callback was called with, in order. */
  function JoinedChannels(effects: seq<Effect>): seq<string> {
    if |effects| == 0 then []
    else
      var last := effects[|effects| - 1];
      JoinedChannels(effects[..|effects| - 1]) + (if last.JoinCallback? then [last.channel] else [])
  }

  /** The argument tuples the message callback was called with, in order. */
  function ForwardedArgs(effects: seq<Effect>): seq<MessageArgs> {
    if |effects| == 0 then []
    else
      var last := effects[|effects| - 1];
      ForwardedArgs(effects[..|effects| - 1]) + (if last.MessageCallback? then [last.args] else [])
  }

  function AckCount(effects: seq<Effect>): nat {
    if |effects| == 0 then 0
    else AckCount(effects[..|effects| - 1]) + (if effects[|effects| - 1].Ack? then 1 else 0)
  }

  /** Reference: the channels of the joins the bot itself made. */
  function BotJoins(botUserId: string, events: seq<Event>): seq<string> {
    if |events| == 0 then []
    else
      var last := events[|events| - 1];
      BotJoins(botUserId, events[..|events| - 1])
        + (if last.Joined? && last.join.user == botUserId then [last.join.channel] else [])
  }

  /** Reference: the arguments of the channel messages in the stream. */
  function ChannelMessages(events: seq<Event>): seq<MessageArgs> {
    if |events| == 0 then []
    else
      var last := events[|events| - 1];
      ChannelMessages(events[..|events| - 1])
        + (if last.Posted? && Forwarded(last.message) then [ArgsOf(last.message)] else [])
  }

  lemma {:induction false} CollectAppend(a: seq<Effect>, b: seq<Effect>)
    ensures JoinedChannels(a + b) == JoinedChannels(a) + JoinedChannels(b)
    ensures ForwardedArgs(a + b) == ForwardedArgs(a) + ForwardedArgs(b)
    ensures AckCount(a + b) == AckCount(a) + AckCount(b)
    decreases |b|
  {
    if |b| == 0 {
      assert a + b == a;
    } else {
      var b' := b[..|b| - 1];
      assert (a + b)[..|a + b| - 1] == a + b';
      assert (a + b)[|a + b| - 1] == b[|b| - 1];
      CollectAppend(a, b');
    }
  }

  /**
   * Over any stream, the join callback runs exactly for the bot's own joins,
   * each acknowledged once, and the message callback runs exactly for the
   * channel messages, in stream order, with their fields in order.
   */
  lemma {:induction false} RouteForwardsExactly(botUserId: string, events: seq<Event>)
    ensures JoinedChannels(Route(botUserId, events)) == BotJoins(botUserId, events)
    ensures AckCount(Route(botUserId, events)) == |BotJoins(botUserId, events)|
    ensures ForwardedArgs(Route(botUserId, events)) == ChannelMessages(events)
    decreases |events|
  {
    if |events| > 0 {
      var init := events[..|events| - 1];
      var last := events[|events| - 1];
      RouteForwardsExactly(botUserId, init);
      var step := match last
                  case Joined(e) => IndexHistory(botUserId, e).effects
                  case Posted(m) => IndexMessage(m);
      CollectAppend(Route(botUserId, init), step);
      match last
      case Joined(e) =>
        if e.user == botUserId {
          assert step == [JoinCallback(e.channel)] + [Ack];
          CollectAppend([JoinCallback(e.channel)], [Ack]);
          assert [JoinCallback(e.channel)][..0] == [];
          assert [Ack][..0] == [];
        }
      case Posted(m) =>
        if Forwarded(m) {
          assert step[..0] == [];
        }
    }
  }
}
