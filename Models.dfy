/** The records of the data model: users with their role checks, orders, and chat messages.
    Timestamps are whole seconds. */
module Models {
  import opened Wrappers

  /** A user. The declared columns have no role; `role` is None when the object carries no
      role attribute, which is the case for every user built from the declared columns. */
  datatype User = User(id: int, email: string, name: string, photo: Option<string>, createdAt: int, role: Option<string>)

  /** The user has a role attribute and it is "admin". */
  predicate IsAdmin(u: User)
  {
    match u.role
    case Some(r) => r == "admin"
    case None => false
  }

  /** The user has a role attribute and it is "writer". */
  predicate IsWriter(u: User)
  {
    match u.role
    case Some(r) => r == "writer"
    case None => false
  }

  /** The two role checks: each holds exactly for its role string, and never both. */
  lemma RoleChecks(u: User)
    ensures IsAdmin(u) <==> u.role.Some? && u.role.value == "admin"
    ensures IsWriter(u) <==> u.role.Some? && u.role.value == "writer"
    ensures !(IsAdmin(u) && IsWriter(u))
  {
  }

  /** A user without a role attribute is neither admin nor writer. */
  lemma NoRoleNoPrivilege(u: User)
    requires u.role.None?
    ensures !IsAdmin(u) && !IsWriter(u)
  {
  }

  /** Status an order gets when none is supplied. */
  const DefaultStatus: string := "Pending"

  /** An order. `status` is free text; `writerId` is the optional assigned writer. */
  datatype Order = Order(
    id: int,
    topic: string,
    description: string,
    deadline: int,
    wordCount: int,
    level: string,
    status: string,
    writerId: Option<int>,
    createdAt: int,
    userId: int)

  /** A freshly created order: the given fields, creation time `now`,
      and status "Pending" unless one is supplied. */
  function NewOrder(id: int, topic: string, description: string, deadline: int, wordCount: int,
                    level: string, status: Option<string>, writerId: Option<int>, userId: int, now: int): (o: Order)
    ensures o.status == (if status.Some? then status.value else "Pending")
    ensures status.None? ==> o.status == DefaultStatus
    ensures o.id == id && o.topic == topic && o.description == description && o.deadline == deadline
    ensures o.wordCount == wordCount && o.level == level && o.writerId == writerId
    ensures o.userId == userId && o.createdAt == now
  {
    var s := match status case Some(given) => given case None => DefaultStatus;
    Order(id, topic, description, deadline, wordCount, level, s, writerId, now, userId)
  }

  /** A chat message between two user ids; id 0 stands for a guest or "unassigned", 1 for the admin inbox.
      `isAdmin` marks a message written by the admin. */
  datatype Message = Message(id: int, senderId: int, receiverId: int, content: string, isAdmin: bool, timestamp: int)

  /** A freshly created message row: the given fields, `isAdmin` false unless it is supplied,
      and the creation time `now` as its timestamp. */
  function NewMessage(id: int, senderId: int, receiverId: int, content: string, isAdmin: Option<bool>, now: int): (m: Message)
    ensures isAdmin.None? ==> !m.isAdmin
    ensures isAdmin.Some? ==> m.isAdmin == isAdmin.value
    ensures m.id == id && m.senderId == senderId && m.receiverId == receiverId && m.content == content
    ensures m.timestamp == now
  {
    var flag := match isAdmin case Some(given) => given case None => false;
    Message(id, senderId, receiverId, content, flag, now)
  }
}
