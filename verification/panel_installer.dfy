/**
 The decision half of `ensure_panel_once` and the map update of the
 `set_panel_channel` command. The decision picks the target channel (the configured
 one when it still exists and the bot may send there, otherwise the selector's
 choice) and then keeps or installs the panel after looking at the newest messages
 of that channel. The send itself is returned as a decision value.
 */
module PanelInstaller {
  import opened Wrappers
  import opened ChannelSelector
  import opened Ids

  /** The in-memory panel channel map, one channel per guild. */
  type Config = map<GuildId, ChannelId>

  /** Title that marks a message as the panel ("대기 모드 패널"). */
  const PanelTitle: string := "대기 모드 패널"

  /** How many of the newest messages the scan looks at. */
  const HistoryLimit: nat := 20

  datatype Embed = Embed(title: Option<string>)
  datatype Message = Message(authorId: UserId, embeds: seq<Embed>)

  /**
   Reading a channel's history, newest message first: either the whole read
   completes, or it raises after delivering `delivered`.
   */
  datatype HistoryRead = Complete(messages: seq<Message>) | Interrupted(delivered: seq<Message>)

  /**
   A guild as the bot sees it: its own user id, its text channels in guild order,
   and every channel by id (what `guild.get_channel` looks up).
   */
  datatype Guild = Guild(id: GuildId, botId: UserId, textChannels: seq<Channel>, channelsById: map<ChannelId, Channel>)

  datatype Decision = NoChannel | Keep(channel: Channel) | Install(channel: Channel)

  /** Messages the scan actually sees from a read. */
  function Seen(h: HistoryRead): seq<Message> {
    match h
    case Complete(msgs) => msgs
    case Interrupted(msgs) => msgs
  }

  /** A message authored by the bot whose first embed has the panel title. */
  predicate IsPanel(botId: UserId, m: Message) {
    m.authorId == botId && |m.embeds| > 0 && m.embeds[0].title == Some(PanelTitle)
  }

  /** One of the newest `HistoryLimit` messages is a panel. */
  ghost predicate PanelInWindow(botId: UserId, msgs: seq<Message>) {
    exists i :: 0 <= i < |msgs| && i < HistoryLimit && IsPanel(botId, msgs[i])
  }

  /** The `async for` over at most `budget` messages that returns on the first panel. */
  function ScanForPanel(botId: UserId, msgs: seq<Message>, budget: nat): (found: bool)
    ensures found <==> exists i :: 0 <= i < |msgs| && i < budget && IsPanel(botId, msgs[i])
  {
    if budget == 0 || |msgs| == 0 then false
    else if IsPanel(botId, msgs[0]) then true
    else ScanForPanel(botId, msgs[1..], budget - 1)
  }

  /** The configured channel, when it is still there and the bot may send to it. */
  function ConfiguredChannel(cfg: Config, g: Guild): Option<Channel> {
    if g.id in cfg && cfg[g.id] in g.channelsById && g.channelsById[cfg[g.id]].canSend
    then Some(g.channelsById[cfg[g.id]])
    else None
  }

  /** The target channel: the configured one if usable, else the selector's choice. */
  function ResolveChannel(cfg: Config, g: Guild, lower: string -> string): (r: Option<Channel>)
    ensures r.Some? ==> r.value.canSend
    ensures r.None? <==> ConfiguredChannel(cfg, g).None? && forall c :: c in g.textChannels ==> !c.canSend
    ensures ConfiguredChannel(cfg, g).Some? ==> r == ConfiguredChannel(cfg, g)
    ensures ConfiguredChannel(cfg, g).None? ==> r == PickPanelChannel(g.textChannels, lower)
  {
    match ConfiguredChannel(cfg, g)
    case Some(c) => Some(c)
    case None => PickPanelChannel(g.textChannels, lower)
  }

  /** `ensure_panel_once`: `historyOf` is what reading a channel's history yields. */
  function EnsurePanelOnce(cfg: Config, g: Guild, historyOf: Channel -> HistoryRead, lower: string -> string): (r: Decision)
    ensures r.NoChannel? <==> ResolveChannel(cfg, g, lower).None?
    ensures !r.NoChannel? ==> ResolveChannel(cfg, g, lower) == Some(r.channel) && r.channel.canSend
    ensures r.Keep? <==> !r.NoChannel? && PanelInWindow(g.botId, Seen(historyOf(r.channel)))
  {
    match ResolveChannel(cfg, g, lower)
    case None => NoChannel
    case Some(ch) =>
      if ScanForPanel(g.botId, Seen(historyOf(ch)), HistoryLimit) then Keep(ch) else Install(ch)
  }

  /** The admin command's update: the invoking guild now maps to `cid`, every other entry stays. */
  function SetPanelChannel(cfg: Config, gid: GuildId, cid: ChannelId): (r: Config)
    ensures r.Keys == cfg.Keys + {gid}
    ensures r[gid] == cid
    ensures forall g :: g in cfg && g != gid ==> r[g] == cfg[g]
  {
    cfg[gid := cid]
  }

  /**
   A configured channel that still exists and accepts the bot's messages is the
   target, whatever the selector would choose and whatever the history holds.
   */
  lemma ConfiguredWins(cfg: Config, g: Guild, historyOf: Channel -> HistoryRead, lower: string -> string)
    requires g.id in cfg && cfg[g.id] in g.channelsById && g.channelsById[cfg[g.id]].canSend
    ensures var d := EnsurePanelOnce(cfg, g, historyOf, lower);
            !d.NoChannel? && d.channel == g.channelsById[cfg[g.id]]
  {
  }

  /**
   A configured channel that is missing or refuses the bot's messages is ignored:
   the target is the selector's choice over the text channels.
   */
  lemma UnusableConfiguredFallsBack(cfg: Config, g: Guild, historyOf: Channel -> HistoryRead, lower: string -> string)
    requires !(g.id in cfg && cfg[g.id] in g.channelsById && g.channelsById[cfg[g.id]].canSend)
    ensures var d := EnsurePanelOnce(cfg, g, historyOf, lower);
            d.NoChannel? <==> PickPanelChannel(g.textChannels, lower).None?
    ensures var d := EnsurePanelOnce(cfg, g, historyOf, lower);
            !d.NoChannel? ==> PickPanelChannel(g.textChannels, lower) == Some(d.channel)
  {
  }

  /** With no channel the bot may send to, nothing is sent, whatever the map says. */
  lemma NoSendableNoSend(cfg: Config, g: Guild, historyOf: Channel -> HistoryRead, lower: string -> string)
    requires forall c :: c in g.textChannels ==> !c.canSend
    requires forall id :: id in g.channelsById ==> !g.channelsById[id].canSend
    ensures EnsurePanelOnce(cfg, g, historyOf, lower) == NoChannel
  {
  }

  /** A read that fails before delivering anything leads to installation. */
  lemma FailedReadInstalls(cfg: Config, g: Guild, historyOf: Channel -> HistoryRead, lower: string -> string)
    requires ResolveChannel(cfg, g, lower).Some?
    requires historyOf(ResolveChannel(cfg, g, lower).value) == Interrupted([])
    ensures EnsurePanelOnce(cfg, g, historyOf, lower) == Install(ResolveChannel(cfg, g, lower).value)
  {
  }

  /** A read that fails part-way decides as if the history ended where it failed. */
  lemma InterruptionTruncates(cfg: Config, g: Guild, msgs: seq<Message>, lower: string -> string)
    ensures EnsurePanelOnce(cfg, g, _ => Interrupted(msgs), lower) == EnsurePanelOnce(cfg, g, _ => Complete(msgs), lower)
  {
  }

  /** A panel that chat traffic pushed below the newest 20 messages is not seen, and a second one is installed. */
  lemma BuriedPanelReinstalled(cfg: Config, g: Guild, recent: seq<Message>, older: seq<Message>, lower: string -> string)
    requires ResolveChannel(cfg, g, lower).Some?
    requires |recent| == HistoryLimit
    requires forall m :: m in recent ==> !IsPanel(g.botId, m)
    ensures EnsurePanelOnce(cfg, g, _ => Complete(recent + older), lower) == Install(ResolveChannel(cfg, g, lower).value)
  {
  }

  /**
   After the admin command points a guild at a channel that exists and accepts the
   bot's messages, the installer targets exactly that channel: it keeps an existing
   panel among the newest 20 messages there and installs one otherwise.
   */
  lemma SetThenEnsure(cfg: Config, g: Guild, c: Channel, historyOf: Channel -> HistoryRead, lower: string -> string)
    requires c.id in g.channelsById && g.channelsById[c.id] == c && c.canSend
    ensures var d := EnsurePanelOnce(SetPanelChannel(cfg, g.id, c.id), g, historyOf, lower);
            d == (if PanelInWindow(g.botId, Seen(historyOf(c))) then Keep(c) else Install(c))
  {
  }

  /** Setting the channel of one guild changes no other guild's decision. */
  lemma SetLeavesOtherGuilds(cfg: Config, gid: GuildId, cid: ChannelId, g: Guild, historyOf: Channel -> HistoryRead, lower: string -> string)
    requires g.id != gid
    ensures EnsurePanelOnce(SetPanelChannel(cfg, gid, cid), g, historyOf, lower) == EnsurePanelOnce(cfg, g, historyOf, lower)
  {
  }
}
