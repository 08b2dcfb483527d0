/**
 The decision half of the two panel buttons (`waitView.activate` and
 `waitView.deactivate`). Each press runs three guards in a fixed order, then an
 "already in the target state" test, then at most one nickname edit. The edit and
 the ephemeral replies are returned as an outcome value instead of being performed.
 */
module NickToggle {
  import opened Wrappers
  import opened Prefix
  import opened Ids

  /** The member who pressed the button; `topRole` is the rank of their highest role. */
  datatype Member = Member(id: UserId, name: string, nick: Option<string>, topRole: int)

  /** What the interaction tells the handler about the guild and the bot itself. */
  datatype Context = Context(ownerId: UserId, botCanManageNicknames: bool, botTopRole: int)

  /** Why a press is refused, one per guard. */
  datatype Refusal = OwnerMember | NoManageNicknames | RoleNotAbove

  datatype Outcome = Refuse(reason: Refusal) | AlreadyActive | AlreadyInactive | SetNick(nick: string)

  /** All three guards pass: not the owner, the bot may manage nicknames, and its top role is above the member's. */
  predicate GuardsPass(m: Member, ctx: Context) {
    m.id != ctx.ownerId && ctx.botCanManageNicknames && ctx.botTopRole > m.topRole
  }

  /** The guards in the order the handlers run them; the first that fails decides. */
  function CheckGuards(m: Member, ctx: Context): Option<Refusal> {
    if m.id == ctx.ownerId then Some(OwnerMember)
    else if !ctx.botCanManageNicknames then Some(NoManageNicknames)
    else if ctx.botTopRole <= m.topRole then Some(RoleNotAbove)
    else None
  }

  /** Python truthiness of `member.nick`: present and non-empty. */
  predicate HasNick(m: Member) {
    m.nick.Some? && m.nick.value != ""
  }

  /** `member.nick if member.nick else member.name`. */
  function Base(m: Member): string {
    if HasNick(m) then m.nick.value else m.name
  }

  /** The member as the platform holds them after a nickname edit. */
  function WithNick(m: Member, nick: string): Member {
    m.(nick := Some(nick))
  }

  /** Pressing the activate button. */
  function Activate(m: Member, ctx: Context): (r: Outcome)
    ensures r.Refuse? <==> !GuardsPass(m, ctx)
    ensures m.id == ctx.ownerId ==> r == Refuse(OwnerMember)
    ensures m.id != ctx.ownerId && !ctx.botCanManageNicknames ==> r == Refuse(NoManageNicknames)
    ensures m.id != ctx.ownerId && ctx.botCanManageNicknames && ctx.botTopRole <= m.topRole ==> r == Refuse(RoleNotAbove)
    ensures !r.AlreadyInactive?
    ensures r.AlreadyActive? <==> GuardsPass(m, ctx) && m.nick.Some? && HasSingleTag(PrefixTag, m.nick.value)
    ensures r.SetNick? ==> HasSingleTag(PrefixTag, r.nick) && StripAll(PrefixTag, r.nick) == StripAll(PrefixTag, Base(m))
  {
    match CheckGuards(m, ctx)
    case Some(reason) => Refuse(reason)
    case None =>
      var clean := StripAll(PrefixTag, Base(m));
      var newNick := PrefixTag + clean;
      assert newNick[|PrefixTag|..] == clean;
      StripAfterTag(PrefixTag, Base(m));
      ActivateTargetMatches(m);
      if m.nick == Some(newNick) then AlreadyActive else SetNick(newNick)
  }

  /** The current nickname equals the activation target exactly when it carries a single tag. */
  lemma ActivateTargetMatches(m: Member)
    ensures m.nick == Some(PrefixTag + StripAll(PrefixTag, Base(m)))
            <==> m.nick.Some? && HasSingleTag(PrefixTag, m.nick.value)
  {
    if HasNick(m) {
      SingleTagFixpoint(PrefixTag, m.nick.value);
    } else if m.nick.Some? {
      assert m.nick.value == "";
      assert !HasSingleTag(PrefixTag, m.nick.value);
    }
  }

  /** Pressing the deactivate button. */
  function Deactivate(m: Member, ctx: Context): (r: Outcome)
    ensures r.Refuse? <==> !GuardsPass(m, ctx)
    ensures m.id == ctx.ownerId ==> r == Refuse(OwnerMember)
    ensures m.id != ctx.ownerId && !ctx.botCanManageNicknames ==> r == Refuse(NoManageNicknames)
    ensures m.id != ctx.ownerId && ctx.botCanManageNicknames && ctx.botTopRole <= m.topRole ==> r == Refuse(RoleNotAbove)
    ensures !r.AlreadyActive?
    ensures r.AlreadyInactive? <==> GuardsPass(m, ctx) && !StartsWith(Base(m), PrefixTag)
    ensures r.SetNick? ==> !StartsWith(r.nick, PrefixTag) && |r.nick| < |Base(m)|
    ensures r.SetNick? ==> StripAll(PrefixTag, r.nick) == StripAll(PrefixTag, Base(m))
  {
    match CheckGuards(m, ctx)
    case Some(reason) => Refuse(reason)
    case None =>
      var current := Base(m);
      var clean := StripAll(PrefixTag, current);
      StripIdempotent(PrefixTag, current);
      if current == clean then AlreadyInactive else SetNick(clean)
  }

  /** A refused press leads to no edit, whichever button it was. */
  lemma RefusalMeansNoEdit(m: Member, ctx: Context)
    requires !GuardsPass(m, ctx)
    ensures Activate(m, ctx) == Deactivate(m, ctx) == Refuse(CheckGuards(m, ctx).value)
  {
  }

  /** Activating the member activate just produced reports "already active" and keeps the nickname. */
  lemma ActivateIdempotent(m: Member, ctx: Context)
    requires Activate(m, ctx).SetNick?
    ensures Activate(WithNick(m, Activate(m, ctx).nick), ctx) == AlreadyActive
  {
  }

  /**
   A member with no server nickname whose account name already carries the tag
   still gets an edit: the comparison is against `member.nick`, not the base name.
   */
  lemma ActivateWithoutNickEdits(m: Member, ctx: Context)
    requires GuardsPass(m, ctx) && m.nick == None && HasSingleTag(PrefixTag, m.name)
    ensures Activate(m, ctx) == SetNick(m.name)
  {
    SingleTagFixpoint(PrefixTag, m.name);
  }

  /** Activating then deactivating leaves the base name with every tag removed. */
  lemma ActivateThenDeactivate(m: Member, ctx: Context)
    requires Activate(m, ctx).SetNick?
    ensures Deactivate(WithNick(m, Activate(m, ctx).nick), ctx) == SetNick(StripAll(PrefixTag, Base(m)))
  {
  }

  /**
   After a deactivate edit, a second deactivate reports "already inactive" exactly
   when the new nickname is non-empty or the account name carries no tag: an empty
   nickname is falsy, so the second press looks at the account name instead.
   */
  lemma DeactivateTwice(m: Member, ctx: Context)
    requires Deactivate(m, ctx).SetNick?
    ensures var c := Deactivate(m, ctx).nick;
            Deactivate(WithNick(m, c), ctx) == AlreadyInactive
            <==> c != "" || !StartsWith(m.name, PrefixTag)
  {
  }

  /** Pressing activate with nickname "Alice" sets "대기_Alice"; pressing again reports "already active". */
  lemma ActivateExample(ctx: Context)
    requires ctx.botCanManageNicknames && ctx.ownerId != 7 && ctx.botTopRole > 0
    ensures Activate(Member(7, "alice", Some("Alice"), 0), ctx) == SetNick("대기_Alice")
    ensures Activate(Member(7, "alice", Some("대기_Alice"), 0), ctx) == AlreadyActive
  {
    assert "Alice"[0] != PrefixTag[0];
    assert StripAll(PrefixTag, "Alice") == "Alice";
    assert "대기_Alice" == PrefixTag + "Alice";
    assert "대기_Alice"[|PrefixTag|..] == "Alice";
  }

  /** Pressing deactivate with nickname "대기_대기_Bob" sets "Bob" in one step. */
  lemma DeactivateExample(ctx: Context)
    requires ctx.botCanManageNicknames && ctx.ownerId != 7 && ctx.botTopRole > 0
    ensures Deactivate(Member(7, "bob", Some("대기_대기_Bob"), 0), ctx) == SetNick("Bob")
  {
    StripExample();
  }
}
