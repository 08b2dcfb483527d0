/**
 Choosing the channel the panel goes to when no usable channel is configured
 (`pick_panel_channel`): keep the text channels the bot may send to, try the name
 fragments in priority order, scanning the channels in guild order for each, and
 otherwise take the channel with the lowest position (the first one on ties,
 because Python's sort is stable).
 */
module ChannelSelector {
  import opened Wrappers
  import opened Ids

  /** A channel as the bot sees it; `canSend` is its own `send_messages` permission there. */
  datatype Channel = Channel(id: ChannelId, name: string, position: int, canSend: bool)

  /** The name fragments, most wanted first: "대기-봇", "대기", "대기-패널". */
  const Priority: seq<string> := ["대기-봇", "대기", "대기-패널"]

  /** Python's `needle in hay` on strings. */
  predicate Contains(hay: string, needle: string)
    decreases |hay|
  {
    needle <= hay || (|hay| > 0 && Contains(hay[1..], needle))
  }

  /** Whether the lower-cased name of `c` contains `wanted`; `lower` stands for `str.lower`. */
  predicate NameHas(c: Channel, wanted: string, lower: string -> string) {
    Contains(lower(c.name), wanted)
  }

  /** The channels the bot may send to, in guild order. */
  function Sendable(chs: seq<Channel>): (r: seq<Channel>)
    ensures forall c :: c in r <==> c in chs && c.canSend
  {
    if |chs| == 0 then []
    else if chs[0].canSend then [chs[0]] + Sendable(chs[1..])
    else Sendable(chs[1..])
  }

  /** Index of the first channel whose name contains `wanted`. */
  function FirstNamed(chs: seq<Channel>, wanted: string, lower: string -> string): (r: Option<nat>)
    ensures r.None? <==> forall c :: c in chs ==> !NameHas(c, wanted, lower)
    ensures r.Some? ==> r.value < |chs| && NameHas(chs[r.value], wanted, lower)
    ensures r.Some? ==> forall j :: 0 <= j < r.value ==> !NameHas(chs[j], wanted, lower)
  {
    if |chs| == 0 then None
    else if NameHas(chs[0], wanted, lower) then Some(0)
    else match FirstNamed(chs[1..], wanted, lower)
      case None => None
      case Some(k) => Some(k + 1)
  }

  /** The outer loop over the priority list: the first fragment with any match decides. */
  function FirstByPriority(chs: seq<Channel>, priority: seq<string>, lower: string -> string): (r: Option<nat>)
    ensures r.None? <==> forall w, c :: w in priority && c in chs ==> !NameHas(c, w, lower)
    ensures r.Some? ==> r.value < |chs|
  {
    if |priority| == 0 then None
    else match FirstNamed(chs, priority[0], lower)
      case Some(k) => Some(k)
      case None => FirstByPriority(chs, priority[1..], lower)
  }

  /** Index of the channel that `sorted(chs, key=position)[0]` yields. */
  function LowestPosition(chs: seq<Channel>): (r: nat)
    requires |chs| > 0
    ensures r < |chs|
    ensures forall j :: 0 <= j < |chs| ==> chs[r].position <= chs[j].position
    ensures forall j :: 0 <= j < r ==> chs[j].position > chs[r].position
  {
    if |chs| == 1 then 0
    else
      var k := LowestPosition(chs[1..]) + 1;
      if chs[0].position <= chs[k].position then 0 else k
  }

  /** `pick_panel_channel` with the priority list as a parameter. */
  function Pick(chs: seq<Channel>, priority: seq<string>, lower: string -> string): (r: Option<Channel>)
    ensures r.None? <==> forall c :: c in chs ==> !c.canSend
    ensures r.Some? ==> r.value in chs && r.value.canSend
  {
    var s := Sendable(chs);
    if |s| == 0 then None
    else match FirstByPriority(s, priority, lower)
      case Some(k) => Some(s[k])
      case None => Some(s[LowestPosition(s)])
  }

  /** `pick_panel_channel` itself. */
  function PickPanelChannel(chs: seq<Channel>, lower: string -> string): (r: Option<Channel>)
    ensures r.None? <==> forall c :: c in chs ==> !c.canSend
    ensures r.Some? ==> r.value in chs && r.value.canSend
  {
    Pick(chs, Priority, lower)
  }

  /** The first sendable channel in guild order whose name has `wanted` is the first match in the filtered list. */
  lemma {:induction false} SendableFirstNamed(chs: seq<Channel>, wanted: string, lower: string -> string, i: nat)
    requires i < |chs| && chs[i].canSend && NameHas(chs[i], wanted, lower)
    requires forall j :: 0 <= j < i ==> !(chs[j].canSend && NameHas(chs[j], wanted, lower))
    ensures var k := FirstNamed(Sendable(chs), wanted, lower);
            k.Some? && Sendable(chs)[k.value] == chs[i]
  {
    if i > 0 {
      SendableFirstNamed(chs[1..], wanted, lower, i - 1);
    }
  }

  /** The first sendable channel of lowest position is the stable-sort minimum of the filtered list. */
  lemma {:induction false} SendableLowest(chs: seq<Channel>, i: nat)
    requires i < |chs| && chs[i].canSend
    requires forall j :: 0 <= j < |chs| && chs[j].canSend ==> chs[i].position <= chs[j].position
    requires forall j :: 0 <= j < i && chs[j].canSend ==> chs[j].position > chs[i].position
    ensures |Sendable(chs)| > 0 && Sendable(chs)[LowestPosition(Sendable(chs))] == chs[i]
  {
    if i > 0 {
      SendableLowest(chs[1..], i - 1);
    }
  }

  /** `Contains` agrees with the positional reading of substring: `needle` occurs at some offset. */
  lemma {:induction false} ContainsAtOffset(hay: string, needle: string)
    ensures Contains(hay, needle) <==> exists i :: 0 <= i <= |hay| && needle <= hay[i..]
    decreases |hay|
  {
    assert hay[0..] == hay;
    if |hay| > 0 {
      ContainsAtOffset(hay[1..], needle);
      if Contains(hay, needle) && !(needle <= hay) {
        var j :| 0 <= j <= |hay[1..]| && needle <= hay[1..][j..];
        assert hay[1..][j..] == hay[j + 1..];
      }
      if exists i :: 0 <= i <= |hay| && needle <= hay[i..] {
        var i :| 0 <= i <= |hay| && needle <= hay[i..];
        if i > 0 {
          assert hay[i..] == hay[1..][i - 1..];
        }
      }
    }
  }

  /** A string that contains `needle` contains every prefix of `needle`. */
  lemma {:induction false} ContainsPrefixOf(hay: string, needle: string, shorter: string)
    requires shorter <= needle && Contains(hay, needle)
    ensures Contains(hay, shorter)
    decreases |hay|
  {
    if !(needle <= hay) {
      ContainsPrefixOf(hay[1..], needle, shorter);
    }
  }

  /** When fragment `k` is the first to match anything, the outer loop returns its first match. */
  lemma {:induction false} FirstByPriorityAt(chs: seq<Channel>, priority: seq<string>, lower: string -> string, k: nat)
    requires k < |priority|
    requires forall k' :: 0 <= k' < k ==> FirstNamed(chs, priority[k'], lower).None?
    ensures FirstByPriority(chs, priority, lower)
            == if FirstNamed(chs, priority[k], lower).Some? then FirstNamed(chs, priority[k], lower)
               else FirstByPriority(chs, priority[k + 1..], lower)
  {
    if k > 0 {
      assert FirstNamed(chs, priority[0], lower).None?;
      FirstByPriorityAt(chs, priority[1..], lower, k - 1);
      assert priority[1..][k..] == priority[k + 1..];
    }
  }

  /**
   Priority beats guild order: when fragment `k` is the first that any sendable
   channel's name contains, the pick is the first sendable channel (in guild order)
   containing fragment `k`, even if a channel matching a later fragment comes earlier.
   */
  lemma PickByPriority(chs: seq<Channel>, priority: seq<string>, lower: string -> string, k: nat, i: nat)
    requires k < |priority|
    requires forall k', c :: 0 <= k' < k && c in chs && c.canSend ==> !NameHas(c, priority[k'], lower)
    requires i < |chs| && chs[i].canSend && NameHas(chs[i], priority[k], lower)
    requires forall j :: 0 <= j < i ==> !(chs[j].canSend && NameHas(chs[j], priority[k], lower))
    ensures Pick(chs, priority, lower) == Some(chs[i])
  {
    var s := Sendable(chs);
    SendableFirstNamed(chs, priority[k], lower, i);
    forall k' | 0 <= k' < k
      ensures FirstNamed(s, priority[k'], lower).None?
    {
    }
    FirstByPriorityAt(s, priority, lower, k);
  }

  /**
   With no fragment matching any sendable channel, the pick is the sendable channel of
   lowest position, the earliest one in guild order on ties.
   */
  lemma PickFallback(chs: seq<Channel>, priority: seq<string>, lower: string -> string, i: nat)
    requires forall w, c :: w in priority && c in chs && c.canSend ==> !NameHas(c, w, lower)
    requires i < |chs| && chs[i].canSend
    requires forall j :: 0 <= j < |chs| && chs[j].canSend ==> chs[i].position <= chs[j].position
    requires forall j :: 0 <= j < i && chs[j].canSend ==> chs[j].position > chs[i].position
    ensures Pick(chs, priority, lower) == Some(chs[i])
  {
    SendableLowest(chs, i);
  }

  /** A fragment whose matches all match the fragment tried just before it changes nothing. */
  lemma DropImpliedFragment(chs: seq<Channel>, a: string, b: string, lower: string -> string)
    requires forall c :: c in chs && NameHas(c, b, lower) ==> NameHas(c, a, lower)
    ensures FirstByPriority(chs, [a, b], lower) == FirstByPriority(chs, [a], lower)
  {
  }

  /**
   Every name containing "대기-패널" also contains "대기", which is tried first, so the
   third fragment never decides the pick.
   */
  lemma ThirdPriorityNeverDecides(chs: seq<Channel>, lower: string -> string)
    ensures PickPanelChannel(chs, lower) == Pick(chs, Priority[..2], lower)
  {
    var s := Sendable(chs);
    var first, wait, panel := Priority[0], Priority[1], Priority[2];
    assert wait <= panel;
    forall c | c in s && NameHas(c, panel, lower)
      ensures NameHas(c, wait, lower)
    {
      ContainsPrefixOf(lower(c.name), panel, wait);
    }
    DropImpliedFragment(s, wait, panel, lower);
    assert Priority == [first, wait, panel] && Priority[..2] == [first, wait];
    assert Priority[1..] == [wait, panel] && Priority[..2][1..] == [wait];
    assert FirstByPriority(s, Priority, lower) == FirstByPriority(s, Priority[..2], lower);
  }

  /**
   With channels "일반", "대기-패널", "대기" (all sendable, names already lower case),
   the pick is "대기-패널": it comes first in guild order and already contains "대기".
   */
  lemma PriorityExample()
    ensures var chs := [Channel(1, "일반", 0, true), Channel(2, "대기-패널", 1, true), Channel(3, "대기", 2, true)];
            PickPanelChannel(chs, s => s) == Some(chs[1])
  {
    var chs := [Channel(1, "일반", 0, true), Channel(2, "대기-패널", 1, true), Channel(3, "대기", 2, true)];
    var lower := (s: string) => s;
    assert !Contains("일반", "대기-봇") by {
      assert !Contains("반", "대기-봇");
    }
    assert !Contains("대기-패널", "대기-봇") by {
      assert !Contains("널", "대기-봇");
      assert !Contains("패널", "대기-봇");
      assert !Contains("-패널", "대기-봇");
      assert "기-패널"[0] != "대기-봇"[0] && "기-패널"[1..] == "-패널";
      assert !Contains("기-패널", "대기-봇");
      assert "대기-패널"[3] != "대기-봇"[3] && "대기-패널"[1..] == "기-패널";
    }
    assert !Contains("대기", "대기-봇") by { assert !Contains("기", "대기-봇"); }
    assert !Contains("일반", "대기") by {
      assert "일반"[0] != "대기"[0] && "일반"[1..] == "반";
      assert !Contains("반", "대기");
    }
    assert "대기" <= "대기-패널";
    PickByPriority(chs, Priority, lower, 1, 1);
  }
}
