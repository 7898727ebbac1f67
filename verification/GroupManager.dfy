/** Groups, their owners, members and administrators, and the guarded operations over their tables. */
module GroupManager {
  import opened Collections

  type UserId = nat
  type GroupId = nat

  /** The groups table gives each group's owner; the members table, each row's is_admin. */
  datatype Tables = Tables(owners: map<GroupId, UserId>, members: map<(GroupId, UserId), bool>, next: GroupId)

  datatype Op =
    | Create(owner: UserId, name: string)
    | Dismiss(actor: UserId, group: GroupId)
    | Join(group: GroupId, user: UserId)
    | Leave(group: GroupId, user: UserId)
    | Remove(actor: UserId, group: GroupId, user: UserId)
    | SetAdmin(actor: UserId, group: GroupId, user: UserId, isAdmin: bool)
    | Transfer(actor: UserId, group: GroupId, user: UserId)

  datatype Error =
    | NameRequired
    | CreateFailed
    | NotOwner
    | GroupNotFound
    | AlreadyMember
    | JoinFailed
    | OwnerCannotLeave
    | NoPermission
    | CannotRemoveOwner
    | CannotRemoveAdmin
    | NotMember
    | TransferToSelf

  // ---------- what the operations do ----------

  predicate IsOwner(t: Tables, g: GroupId, u: UserId) {
    g in t.owners && t.owners[g] == u
  }

  predicate IsMember(t: Tables, g: GroupId, u: UserId) {
    (g, u) in t.members
  }

  predicate IsAdmin(t: Tables, g: GroupId, u: UserId) {
    (g, u) in t.members && t.members[(g, u)]
  }

  /** Why an operation is refused, if it is; `users` are those the users table holds. */
  function Refusal(users: set<UserId>, t: Tables, op: Op): Option<Error> {
    match op
    case Create(owner, name) =>
      if name == "" then Some(NameRequired) else if owner !in users then Some(CreateFailed) else None
    case Dismiss(actor, g) =>
      if !IsOwner(t, g, actor) then Some(NotOwner) else None
    case Join(g, u) =>
      if g !in t.owners then Some(GroupNotFound)
      else if IsMember(t, g, u) then Some(AlreadyMember)
      else if u !in users then Some(JoinFailed)
      else None
    case Leave(g, u) =>
      if IsOwner(t, g, u) then Some(OwnerCannotLeave) else None
    case Remove(actor, g, u) =>
      if !IsOwner(t, g, actor) && !IsAdmin(t, g, actor) then Some(NoPermission)
      else if IsOwner(t, g, u) then Some(CannotRemoveOwner)
      else if IsAdmin(t, g, u) && !IsOwner(t, g, actor) then Some(CannotRemoveAdmin)
      else None
    case SetAdmin(actor, g, u, isAdmin) =>
      if !IsOwner(t, g, actor) then Some(NotOwner) else if !IsMember(t, g, u) then Some(NotMember) else None
    case Transfer(actor, g, u) =>
      if !IsOwner(t, g, actor) then Some(NotOwner)
      else if actor == u then Some(TransferToSelf)
      else if !IsMember(t, g, u) then Some(NotMember)
      else None
  }

  /** Deleting a group deletes its member rows with it. */
  function WithoutGroup(t: Tables, g: GroupId): Tables {
    t.(owners := t.owners - {g}, members := map row | row in t.members && row.0 != g :: t.members[row])
  }

  function WithFlag(t: Tables, g: GroupId, u: UserId, isAdmin: bool): Tables {
    if IsMember(t, g, u) then t.(members := t.members[(g, u) := isAdmin]) else t
  }

  function Next(users: set<UserId>, t: Tables, op: Op): Tables {
    if Refusal(users, t, op).Some? then t
    else
      match op
      case Create(owner, _) =>
        Tables(t.owners[t.next := owner], t.members[(t.next, owner) := true], t.next + 1)
      case Dismiss(_, g) => WithoutGroup(t, g)
      case Join(g, u) => t.(members := t.members[(g, u) := false])
      case Leave(g, u) => t.(members := t.members - {(g, u)})
      case Remove(_, g, u) => t.(members := t.members - {(g, u)})
      case SetAdmin(_, g, u, isAdmin) => WithFlag(t, g, u, isAdmin)
      case Transfer(actor, g, u) =>
        WithFlag(WithFlag(t.(owners := t.owners[g := u]), g, actor, false), g, u, true)
  }

  function After(users: set<UserId>, t: Tables, ops: seq<Op>): Tables
    decreases |ops|
  {
    if ops == [] then t else After(users, Next(users, t, ops[0]), ops[1..])
  }

  const EMPTY := Tables(map[], map[], 1)

  // ---------- what every run keeps ----------

  ghost predicate Inv(users: set<UserId>, t: Tables) {
    && (forall g :: g in t.owners ==> g < t.next && (g, t.owners[g]) in t.members)
    && (forall row :: row in t.members ==> row.0 in t.owners && row.1 in users)
  }

  lemma StepKeeps(users: set<UserId>, t: Tables, op: Op)
    requires Inv(users, t)
    ensures Inv(users, Next(users, t, op))
  {
  }

  lemma {:induction false} RunKeeps(users: set<UserId>, t: Tables, ops: seq<Op>)
    requires Inv(users, t)
    ensures Inv(users, After(users, t, ops))
    decreases |ops|
  {
    if ops != [] {
      StepKeeps(users, t, ops[0]);
      RunKeeps(users, Next(users, t, ops[0]), ops[1..]);
    }
  }

  /** After any run each group's owner is one of its members, and every row is of an existing group and user. */
  lemma OwnersAreMembers(users: set<UserId>, ops: seq<Op>)
    ensures var t := After(users, EMPTY, ops);
            && (forall g :: g in t.owners ==> IsMember(t, g, t.owners[g]))
            && (forall row :: row in t.members ==> row.0 in t.owners && row.1 in users)
  {
    RunKeeps(users, EMPTY, ops);
  }

  // ---------- who may change what ----------

  /** Owners stand above administrators, and these above everyone else. */
  function Rank(t: Tables, g: GroupId, u: UserId): nat {
    if IsOwner(t, g, u) then 2 else if IsAdmin(t, g, u) then 1 else 0
  }

  /** Removing somebody succeeds exactly when the one who does it ranks strictly higher, and removes only them. */
  lemma RemoveExactly(users: set<UserId>, t: Tables, actor: UserId, g: GroupId, u: UserId)
    ensures var op := Remove(actor, g, u);
            && (Refusal(users, t, op).None? <==> Rank(t, g, actor) > Rank(t, g, u))
            && (Refusal(users, t, op).None? ==> Next(users, t, op).members == t.members - {(g, u)})
            && Next(users, t, op).owners == t.owners
  {
  }

  /** `owner` transfers the group to somebody else in it. */
  predicate HandsOver(t: Tables, op: Op, g: GroupId, owner: UserId) {
    op.Transfer? && op.group == g && op.actor == owner && op.user != owner && IsMember(t, g, op.user)
  }

  /** An owner is replaced only by handing the group over, and only to a member. */
  lemma OwnerChangesByTransfer(users: set<UserId>, t: Tables, op: Op, g: GroupId)
    requires Inv(users, t) && g in t.owners
    ensures var after := Next(users, t, op);
            && (g !in after.owners <==> op == Dismiss(t.owners[g], g))
            && (g in after.owners && after.owners[g] != t.owners[g] <==>
                  HandsOver(t, op, g, t.owners[g]))
            && (g in after.owners && after.owners[g] != t.owners[g] ==>
                  after.owners[g] == op.user && !IsAdmin(after, g, op.actor) && IsAdmin(after, g, op.user))
  {
  }

  /** The owner of a group that is there at the end, followed through every transfer of it. */
  function OwnerFollowed(owner: UserId, users: set<UserId>, t: Tables, ops: seq<Op>, g: GroupId): UserId
    decreases |ops|
  {
    if ops == [] then owner
    else
      var op := ops[0];
      OwnerFollowed(if HandsOver(t, op, g, owner) then op.user else owner, users, Next(users, t, op), ops[1..], g)
  }

  /** Over any run ownership passes along a chain of transfers, each made by the owner it had reached. */
  lemma {:induction false} OwnershipIsAChain(users: set<UserId>, t: Tables, ops: seq<Op>, g: GroupId)
    requires Inv(users, t) && g in t.owners && g in After(users, t, ops).owners
    ensures After(users, t, ops).owners[g] == OwnerFollowed(t.owners[g], users, t, ops, g)
    decreases |ops|
  {
    if ops != [] {
      var next := Next(users, t, ops[0]);
      StepKeeps(users, t, ops[0]);
      OwnerChangesByTransfer(users, t, ops[0], g);
      if g !in next.owners {
        GoneForGood(users, next, ops[1..], g);
        assert false;
      }
      OwnershipIsAChain(users, next, ops[1..], g);
    }
  }

  /** A number that has been used for a group that is gone is never used again. */
  lemma {:induction false} GoneForGood(users: set<UserId>, t: Tables, ops: seq<Op>, g: GroupId)
    requires Inv(users, t) && g !in t.owners && g < t.next
    ensures g !in After(users, t, ops).owners
    ensures forall u :: (g, u) !in After(users, t, ops).members
    decreases |ops|
  {
    if ops == [] {
      assert forall u :: (g, u) in t.members ==> (g, u).0 in t.owners;
    } else {
      StepKeeps(users, t, ops[0]);
      GoneForGood(users, Next(users, t, ops[0]), ops[1..], g);
    }
  }

  /** Who comes in and who goes: each change of membership has one of these reasons, and no other. */
  lemma MembershipExactly(users: set<UserId>, t: Tables, op: Op, g: GroupId, u: UserId)
    requires Inv(users, t)
    ensures !IsMember(t, g, u) ==>
              (IsMember(Next(users, t, op), g, u) <==>
                 || (op == Join(g, u) && g in t.owners && u in users)
                 || (op.Create? && op.owner == u && op.name != "" && g == t.next && u in users))
    ensures IsMember(t, g, u) ==>
              (!IsMember(Next(users, t, op), g, u) <==>
                 || (op == Leave(g, u) && !IsOwner(t, g, u))
                 || (op.Remove? && op.group == g && op.user == u && Rank(t, g, op.actor) > Rank(t, g, u))
                 || (op.Dismiss? && op.group == g && IsOwner(t, g, op.actor)))
  {
    assert IsMember(t, g, u) ==> (g, u).0 in t.owners;
  }

  /** The owner appoints or dismisses an administrator: that member's flag becomes what is asked for. */
  lemma SetAdminExactly(users: set<UserId>, t: Tables, actor: UserId, g: GroupId, u: UserId, isAdmin: bool)
    requires IsOwner(t, g, actor) && IsMember(t, g, u)
    ensures var after := Next(users, t, SetAdmin(actor, g, u, isAdmin));
            && Refusal(users, t, SetAdmin(actor, g, u, isAdmin)).None?
            && IsAdmin(after, g, u) == isAdmin
            && (forall h: GroupId, v: UserId :: (h, v) != (g, u) ==> IsAdmin(after, h, v) == IsAdmin(t, h, v))
            && after.owners == t.owners && after.members.Keys == t.members.Keys
  {
  }

  /** Who makes whom an administrator: the owner by appointing or handing over, or whoever creates the group. */
  predicate Appoints(users: set<UserId>, t: Tables, op: Op, g: GroupId, u: UserId) {
    || (op.Create? && op.owner == u && op.name != "" && u in users && g == t.next)
    || (op.SetAdmin? && op.group == g && op.user == u && op.isAdmin && IsOwner(t, g, op.actor) && IsMember(t, g, u))
    || (op.Transfer? && op.group == g && op.user == u && op.actor != u && IsOwner(t, g, op.actor)
        && IsMember(t, g, u))
  }

  /** Who takes the flag from whom: the owner, and the owner who hands over from themselves. */
  predicate Demotes(t: Tables, op: Op, g: GroupId, u: UserId) {
    || (op.SetAdmin? && op.group == g && op.user == u && !op.isAdmin && IsOwner(t, g, op.actor))
    || (op.Transfer? && op.group == g && op.actor == u && op.user != u && IsOwner(t, g, u) && IsMember(t, g, op.user))
  }

  /** After any operation the administrators are those it appoints, and those who were, are still in and not demoted. */
  lemma AdminsExactly(users: set<UserId>, t: Tables, op: Op, g: GroupId, u: UserId)
    requires Inv(users, t)
    ensures var after := Next(users, t, op);
            IsAdmin(after, g, u) <==>
              Appoints(users, t, op, g, u) || (IsAdmin(t, g, u) && IsMember(after, g, u) && !Demotes(t, op, g, u))
  {
    assert (g, u) in t.members ==> (g, u).0 in t.owners;
  }

  /**
   * Somebody's rank rises if and only if they create the group, the owner appoints them while they
   * have no rank, or the owner hands over to them.
   */
  lemma RankRisesOnlyByOwner(users: set<UserId>, t: Tables, op: Op, g: GroupId, u: UserId)
    requires Inv(users, t)
    ensures Rank(Next(users, t, op), g, u) > Rank(t, g, u) <==>
              Appoints(users, t, op, g, u) && (op.SetAdmin? ==> Rank(t, g, u) == 0)
  {
    assert (g, u) in t.members ==> (g, u).0 in t.owners;
  }

  /** Exactly when each operation succeeds, in terms of the tables alone. */
  lemma SucceedsExactly(users: set<UserId>, t: Tables, op: Op)
    ensures Refusal(users, t, op).None? <==>
              match op
              case Create(owner, name) => |name| > 0 && owner in users
              case Dismiss(actor, g) => g in t.owners && t.owners[g] == actor
              case Join(g, u) => g in t.owners && (g, u) !in t.members && u in users
              case Leave(g, u) => !(g in t.owners && t.owners[g] == u)
              case Remove(actor, g, u) => Rank(t, g, actor) > Rank(t, g, u)
              case SetAdmin(actor, g, u, _) => g in t.owners && t.owners[g] == actor && (g, u) in t.members
              case Transfer(actor, g, u) =>
                g in t.owners && t.owners[g] == actor && (g, u) in t.members && actor != u
    ensures Refusal(users, t, op).Some? ==> Next(users, t, op) == t
  {
  }

  /** What a refused caller is told: the first of the checks that fails. */
  lemma RefusalReasons(users: set<UserId>, t: Tables, op: Op)
    requires Refusal(users, t, op).Some?
    ensures var error := Refusal(users, t, op).value;
            match op
            case Create(_, name) => error == if |name| == 0 then NameRequired else CreateFailed
            case Dismiss(_, _) => error == NotOwner
            case Join(g, u) =>
              error == if g !in t.owners then GroupNotFound
                       else if (g, u) in t.members then AlreadyMember
                       else JoinFailed
            case Leave(_, _) => error == OwnerCannotLeave
            case Remove(actor, g, u) =>
              error == if Rank(t, g, actor) == 0 then NoPermission
                       else if Rank(t, g, u) == 2 then CannotRemoveOwner
                       else CannotRemoveAdmin
            case SetAdmin(actor, g, _, _) => error == if Rank(t, g, actor) < 2 then NotOwner else NotMember
            case Transfer(actor, g, u) =>
              error == if Rank(t, g, actor) < 2 then NotOwner else if actor == u then TransferToSelf else NotMember
  {
  }

  ghost predicate OwnersAreAdmins(t: Tables) {
    forall g :: g in t.owners ==> IsAdmin(t, g, t.owners[g])
  }

  /** The flag every owner starts with stays if and only if no owner takes it from themselves. */
  lemma OwnerFlagExactly(users: set<UserId>, t: Tables, op: Op)
    requires Inv(users, t) && OwnersAreAdmins(t)
    ensures OwnersAreAdmins(Next(users, t, op)) <==> !ClearsOwnFlag(t, op)
  {
    var after := Next(users, t, op);
    if ClearsOwnFlag(t, op) {
      assert !IsAdmin(after, op.group, after.owners[op.group]);
    }
  }

  /** An owner's own call that clears the owner's own flag. */
  predicate ClearsOwnFlag(t: Tables, op: Op) {
    op.SetAdmin? && op.actor == op.user && !op.isAdmin && IsOwner(t, op.group, op.actor)
  }

  /** Every owner has the flag before, between and after the operations. */
  ghost predicate OwnersStayAdmins(users: set<UserId>, t: Tables, ops: seq<Op>)
    decreases |ops|
  {
    OwnersAreAdmins(t) && (ops == [] || OwnersStayAdmins(users, Next(users, t, ops[0]), ops[1..]))
  }

  predicate NoneClears(users: set<UserId>, t: Tables, ops: seq<Op>)
    decreases |ops|
  {
    ops == [] || (!ClearsOwnFlag(t, ops[0]) && NoneClears(users, Next(users, t, ops[0]), ops[1..]))
  }

  /** Over any run: owners are administrators throughout if and only if none of them ever clears their own flag. */
  lemma {:induction false} OwnersStayAdminsExactly(users: set<UserId>, t: Tables, ops: seq<Op>)
    requires Inv(users, t) && OwnersAreAdmins(t)
    ensures OwnersStayAdmins(users, t, ops) <==> NoneClears(users, t, ops)
    decreases |ops|
  {
    if ops != [] {
      StepKeeps(users, t, ops[0]);
      OwnerFlagExactly(users, t, ops[0]);
      if !ClearsOwnFlag(t, ops[0]) {
        OwnersStayAdminsExactly(users, Next(users, t, ops[0]), ops[1..]);
      }
    }
  }

  /** It can be taken: an owner whose flag is cleared is still the owner, and still outranks everyone. */
  lemma OwnerWithoutFlag(owner: UserId, name: string)
    requires name != ""
    ensures var t := After({owner}, EMPTY, [Create(owner, name), SetAdmin(owner, 1, owner, false)]);
            IsOwner(t, 1, owner) && !IsAdmin(t, 1, owner) && Rank(t, 1, owner) == 2
  {
    var ops := [Create(owner, name), SetAdmin(owner, 1, owner, false)];
    var t1 := Tables(map[1 := owner], map[(1, owner) := true], 2);
    assert Next({owner}, EMPTY, ops[0]) == t1;
    var t2 := Tables(map[1 := owner], map[(1, owner) := false], 2);
    assert Next({owner}, t1, ops[1]) == t2;
    assert ops[1..] == [ops[1]] && ops[1..][1..] == [];
    assert After({owner}, t2, []) == t2;
  }

  // ---------- in place ----------

  /** The manager over its tables; each operation returns why it was refused, if it was. */
  class GroupManager {
    const users: set<UserId>
    var owners: map<GroupId, UserId>
    var members: map<(GroupId, UserId), bool>
    var next: GroupId

    function State(): Tables
      reads this
    {
      Tables(owners, members, next)
    }

    constructor (users: set<UserId>)
      ensures this.users == users && State() == EMPTY
    {
      this.users := users;
      owners, members, next := map[], map[], 1;
    }

    method CreateGroup(owner: UserId, name: string) returns (error: Option<Error>, group: GroupId)
      modifies this
      ensures error == Refusal(users, old(State()), Create(owner, name))
      ensures State() == Next(users, old(State()), Create(owner, name))
      ensures error.None? ==> group == old(next)
    {
      if name == "" {
        return Some(NameRequired), 0;
      }
      if owner !in users {
        return Some(CreateFailed), 0;
      }
      group, next := next, next + 1;
      owners := owners[group := owner];
      members := members[(group, owner) := true];
      error := None;
    }

    method DismissGroup(actor: UserId, group: GroupId) returns (error: Option<Error>)
      modifies this
      ensures error == Refusal(users, old(State()), Dismiss(actor, group))
      ensures State() == Next(users, old(State()), Dismiss(actor, group))
    {
      if !IsOwner(State(), group, actor) {
        return Some(NotOwner);
      }
      owners := owners - {group};
      var rows := members.Keys;
      while rows != {}
        invariant rows <= old(members).Keys && owners == old(owners) - {group} && next == old(next)
        invariant members == map row | row in old(members) && (row in rows || row.0 != group) :: old(members)[row]
        decreases |rows|
      {
        var row :| row in rows;
        if row.0 == group {
          members := members - {row};
        }
        rows := rows - {row};
      }
      return None;
    }

    method JoinGroup(group: GroupId, user: UserId) returns (error: Option<Error>)
      modifies this
      ensures error == Refusal(users, old(State()), Join(group, user))
      ensures State() == Next(users, old(State()), Join(group, user))
    {
      if group !in owners {
        return Some(GroupNotFound);
      }
      if IsMember(State(), group, user) {
        return Some(AlreadyMember);
      }
      if user !in users {
        return Some(JoinFailed);
      }
      members := members[(group, user) := false];
      return None;
    }

    method LeaveGroup(group: GroupId, user: UserId) returns (error: Option<Error>)
      modifies this
      ensures error == Refusal(users, old(State()), Leave(group, user))
      ensures State() == Next(users, old(State()), Leave(group, user))
    {
      if IsOwner(State(), group, user) {
        return Some(OwnerCannotLeave);
      }
      members := members - {(group, user)};
      return None;
    }

    method RemoveMember(actor: UserId, group: GroupId, user: UserId) returns (error: Option<Error>)
      modifies this
      ensures error == Refusal(users, old(State()), Remove(actor, group, user))
      ensures State() == Next(users, old(State()), Remove(actor, group, user))
    {
      if !IsOwner(State(), group, actor) && !IsAdmin(State(), group, actor) {
        return Some(NoPermission);
      }
      if IsOwner(State(), group, user) {
        return Some(CannotRemoveOwner);
      }
      if IsAdmin(State(), group, user) && !IsOwner(State(), group, actor) {
        return Some(CannotRemoveAdmin);
      }
      members := members - {(group, user)};
      return None;
    }

    method SetGroupAdmin(actor: UserId, group: GroupId, user: UserId, isAdmin: bool) returns (error: Option<Error>)
      modifies this
      ensures error == Refusal(users, old(State()), SetAdmin(actor, group, user, isAdmin))
      ensures State() == Next(users, old(State()), SetAdmin(actor, group, user, isAdmin))
    {
      if !IsOwner(State(), group, actor) {
        return Some(NotOwner);
      }
      if !IsMember(State(), group, user) {
        return Some(NotMember);
      }
      members := members[(group, user) := isAdmin];
      return None;
    }

    method TransferOwner(actor: UserId, group: GroupId, user: UserId) returns (error: Option<Error>)
      modifies this
      ensures error == Refusal(users, old(State()), Transfer(actor, group, user))
      ensures State() == Next(users, old(State()), Transfer(actor, group, user))
    {
      if !IsOwner(State(), group, actor) {
        return Some(NotOwner);
      }
      if actor == user {
        return Some(TransferToSelf);
      }
      if !IsMember(State(), group, user) {
        return Some(NotMember);
      }
      owners := owners[group := user];
      if IsMember(State(), group, actor) {
        members := members[(group, actor) := false];
      }
      members := members[(group, user) := true];
      return None;
    }
  }
}
