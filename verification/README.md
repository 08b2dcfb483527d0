# Waiting-mode bot: a Dafny model of its decision logic

The bot (`main_wait.py`) lets the members of a Discord guild mark themselves as
"waiting" by pressing a button on a panel message. The button adds or removes the
nickname tag `대기_`. The bot also puts the panel into a suitable channel of every
guild it joins. Underneath the Discord client there are four pure decisions, and this
project models each of them as a Dafny function over plain data:

- `Prefix` (prefix.dfy): `strip_all_prefixes`. It removes the tag from the front of a
  string for as long as the string starts with it. `StripAll` is the recursive
  definition. `StripAllPrefixes` is the source's `while` loop, proved equal to it.
- `NickToggle` (nick_toggle.dfy): what pressing *activate* or *deactivate* leads to.
  The three guards run in order: guild owner, missing `manage_nicknames`, bot's top role
  not above the member's. The first that fails refuses the press. Otherwise the press
  reports "already active" / "already inactive" or asks for one nickname edit
  (`SetNick`). Roles are integer ranks. `member.nick` is an `Option<string>`. The base
  name is the nickname when that is truthy (present and non-empty), else the account
  name.
- `ChannelSelector` (channel_selector.dfy): `pick_panel_channel` over a sequence of
  channel records `(id, name, position, canSend)` in guild order. `str.lower` is a
  function parameter `lower`. The function returns the chosen channel or `None`.
- `PanelInstaller` (panel_installer.dfy): the decision of `ensure_panel_once`
  (`NoChannel | Keep(ch) | Install(ch)`) over the panel channel map, a channel lookup
  and a history read. It also holds the map update of the `set_panel_channel` command.

`Wrappers` (wrappers.dfy) holds the `Option` type, and `Ids` (ids.dfy) the user,
guild and channel id types.

Notable consequences the proofs make explicit:

- Activation compares the target with `member.nick`, not with the base name. A member
  without a nickname whose account name already carries the tag still gets an edit
  (`ActivateWithoutNickEdits`).
- If deactivation strips a nickname down to the empty string, that nickname is falsy.
  The next press then looks at the account name. So a second deactivate reports
  "already inactive" only when the stripped nickname is non-empty or the account name
  has no tag (`DeactivateTwice`).
- Fragments are matched as substrings. Every name containing "대기-패널" also contains
  "대기", which is tried earlier, so the third fragment never decides
  (`ThirdPriorityNeverDecides`). One could read the priority list as preferring a
  channel named exactly "대기" over an earlier "대기-패널". The code does not do that:
  it picks "대기-패널" when that channel comes first in guild order
  (`PriorityExample`). The model follows the code.
- A history read that raises part-way only shortens what the scan sees
  (`InterruptionTruncates`). A read that raises before delivering anything leads to
  installation (`FailedReadInstalls`). A panel buried below the newest 20 messages
  leads to a second panel (`BuriedPanelReinstalled`).
- The source keys the map by `str(guild.id)`. Converting an integer to a decimal
  string is injective, so the model keys the map by the numeric guild id.

## Model

| member | source | states |
|---|---|---|
| Prefix.StripAll | main_wait.py:39-42 | the result never starts with the tag, is never longer than the input, and is strictly shorter exactly when the input starts with the tag |
| Prefix.StripAllPrefixes | main_wait.py:39-42 | the source's loop ends with a string that does not start with the tag and equals the recursive definition |
| Prefix.StripCounted | main_wait.py:39-42 | the input is the loop's number of removed tags followed by the result |
| Prefix.StripShape | main_wait.py:39-42 | the input equals some number k ≥ 0 of tags followed by the result |
| Prefix.StripRepeat | main_wait.py:39-42 | leading tags never change the stripped result |
| Prefix.StripRepeatUntagged | main_wait.py:39-42 | k tags followed by a tag-free string strip to exactly that string |
| Prefix.StripCharacterization | main_wait.py:39-42 | the result is t if and only if t is tag-free and the input is some number of tags followed by t |
| Prefix.StripIdempotent | main_wait.py:39-42 | stripping twice equals stripping once |
| Prefix.StripAfterTag | main_wait.py:39-42 | stripping the tag plus a stripped name gives the stripped name back |
| Prefix.SingleTagFixpoint | main_wait.py:122-126 | a string equals the tag plus its stripped form if and only if it carries exactly one leading tag |
| Prefix.StripExample | main_wait.py:156-157 | "대기_대기_Bob" strips to "Bob" |
| NickToggle.Activate | main_wait.py:107-134 | guards in order owner, nickname permission, role rank, first failure refuses; a refusal happens if and only if some guard fails; "already active" if and only if the guards pass and the nickname is present and carries exactly one tag; an edit sets a single-tag nickname whose stripped form is the stripped base name |
| NickToggle.ActivateTargetMatches | main_wait.py:122-126 | the current nickname equals the activation target if and only if it is present and carries exactly one tag |
| NickToggle.Deactivate | main_wait.py:142-163 | the same guard order and refusal condition; "already inactive" if and only if the guards pass and the base name has no leading tag; an edit sets a strictly shorter, tag-free nickname with the same stripped form as the base name |
| NickToggle.RefusalMeansNoEdit | main_wait.py:112-154 | when a guard fails, both buttons give the same refusal, the first failing guard's, and no edit |
| NickToggle.ActivateIdempotent | main_wait.py:122-134 | activating the member that an activate edit produced reports "already active" |
| NickToggle.ActivateWithoutNickEdits | main_wait.py:122-134 | a member with no nickname whose account name already has one tag still gets an edit to that name |
| NickToggle.ActivateThenDeactivate | main_wait.py:122-163 | deactivating right after an activate edit sets the base name with all tags removed |
| NickToggle.DeactivateTwice | main_wait.py:156-163 | after a deactivate edit, a second deactivate reports "already inactive" if and only if the new nickname is non-empty or the account name has no tag |
| NickToggle.ActivateExample | main_wait.py:122-134 | nickname "Alice" is set to "대기_Alice", and "대기_Alice" reports "already active" |
| NickToggle.DeactivateExample | main_wait.py:156-163 | nickname "대기_대기_Bob" is set to "Bob" in one press |
| ChannelSelector.Sendable | main_wait.py:50-53 | the filtered list holds exactly the channels the bot may send to |
| ChannelSelector.FirstNamed | main_wait.py:58-60 | returns the index of a channel whose lower-cased name contains the fragment, with no earlier such channel; nothing if and only if no channel's name contains it |
| ChannelSelector.FirstByPriority | main_wait.py:57-60 | nothing if and only if no fragment occurs in any channel name |
| ChannelSelector.LowestPosition | main_wait.py:62 | the chosen channel has the minimum position, and every earlier channel has a strictly larger one |
| ChannelSelector.Pick | main_wait.py:46-62 | no channel if and only if the bot may send to no text channel; a chosen channel is one of the text channels and accepts the bot's messages |
| ChannelSelector.PickPanelChannel | main_wait.py:46-62 | with the source's fixed fragments: no channel if and only if the bot may send to no text channel; a chosen channel is one of the text channels and accepts the bot's messages |
| ChannelSelector.SendableFirstNamed | main_wait.py:50-60 | the first sendable match in guild order is the first match in the filtered list |
| ChannelSelector.SendableLowest | main_wait.py:50-62 | the first sendable channel of minimum position is the stable-sort minimum of the filtered list |
| ChannelSelector.ContainsAtOffset | main_wait.py:59 | the substring test holds if and only if the fragment occurs at some offset of the name |
| ChannelSelector.ContainsPrefixOf | main_wait.py:59 | a name that contains a fragment contains every prefix of it |
| ChannelSelector.FirstByPriorityAt | main_wait.py:57-60 | when no earlier fragment matches, the outer loop returns the first match of fragment k, or goes on past it |
| ChannelSelector.PickByPriority | main_wait.py:47-60 | when fragment k is the first that any sendable name contains, the pick is the first sendable channel in guild order containing fragment k |
| ChannelSelector.PickFallback | main_wait.py:54-62 | with no fragment matching, the pick is the sendable channel of minimum position, the earliest one on ties |
| ChannelSelector.DropImpliedFragment | main_wait.py:57-60 | a fragment whose matches all match the previous fragment changes nothing |
| ChannelSelector.ThirdPriorityNeverDecides | main_wait.py:47-60 | the pick with all three fragments equals the pick with the first two |
| ChannelSelector.PriorityExample | main_wait.py:47-60 | among sendable "일반", "대기-패널", "대기" the pick is "대기-패널" |
| PanelInstaller.ScanForPanel | main_wait.py:83-88 | the scan returns early if and only if one of the first 20 messages is bot-authored with a first embed titled like the panel |
| PanelInstaller.ConfiguredWins | main_wait.py:70-77 | when the guild has an entry whose channel exists and accepts the bot's messages, the decision targets that channel |
| PanelInstaller.UnusableConfiguredFallsBack | main_wait.py:70-81 | when the entry is missing, its channel is gone or refuses the bot's messages, the decision targets the selector's choice, and there is no send exactly when the selector finds nothing |
| PanelInstaller.ResolveChannel | main_wait.py:68-77 | a usable configured channel wins, otherwise the selector decides; no channel if and only if neither yields one; a target always accepts the bot's messages |
| PanelInstaller.EnsurePanelOnce | main_wait.py:66-96 | no send if and only if no target channel; otherwise the resolved channel is kept if and only if a panel is among the newest 20 messages read, and installed otherwise |
| PanelInstaller.SetPanelChannel | main_wait.py:212 | the invoking guild maps to the new channel, no other entry changes and no key disappears |
| PanelInstaller.NoSendableNoSend | main_wait.py:70-81 | with no channel accepting the bot's messages nothing is sent, whatever the map says |
| PanelInstaller.FailedReadInstalls | main_wait.py:83-96 | a history read that fails before delivering anything leads to installation |
| PanelInstaller.InterruptionTruncates | main_wait.py:83-90 | a read that fails part-way decides like a complete read of the delivered messages |
| PanelInstaller.BuriedPanelReinstalled | main_wait.py:84-96 | a panel below the newest 20 messages is not seen and a second one is installed |
| PanelInstaller.SetThenEnsure | main_wait.py:211-218 | after the command points the guild at an existing sendable channel, the installer targets that channel: keep if a panel is within its newest 20 messages, install otherwise |
| PanelInstaller.SetLeavesOtherGuilds | main_wait.py:212 | setting one guild's channel changes no other guild's decision |

## Left out

- `load_config` / `save_config` (main_wait.py:25-33): file and JSON I/O. Only the in-memory map update is modelled.
- The Discord client: `on_ready`, `on_guild_join`, slash-command sync, `bot.add_view`, token loading and `bot.run` (main_wait.py:16-21, 183-204, 223-227). These are platform and environment plumbing with no decision logic beyond calling `ensure_panel_once`.
- `ephemeral_delete` and the `delete_after` notice (main_wait.py:128-131, 170-178): timed sleep-then-delete with swallowed errors. The model returns the outcome and not the messages.
- The `member.edit` and `channel.send` REST calls are returned as `SetNick` / `Install` values, not performed. A failure of these calls (which the source does not catch) is not modelled.
- `str.lower` is a parameter. Discord's role ordering is an integer rank, and the permission checks are booleans on the records.
- User-facing message texts and `print` logging.
- Concurrency between handlers (interleaved admin commands) is not modelled. Each decision is a single function call.
