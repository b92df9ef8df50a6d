/**
 Users, groups and friendship (IMServer/UserManager.cpp): the cached friend sets against the tables
 t_user and t_user_relationship.

 Whether the database applies or refuses a statement is a parameter. A row of the relation table
 may be present more than once; deleting removes every copy.
 */
module FriendGraph {

  type Id = int

  /** Ids from here on are groups. */
  const GROUP_BASE := 0xFFFFFFF

  datatype Row = Row(small: Id, great: Id)

  datatype Book = Book(
    friends: map<Id, set<Id>>,    // the friend set of every cached user
    users: set<Id>,               // t_user, by f_user_id
    rows: seq<Row>,               // t_user_relationship
    baseUser: Id,                 // m_baseUserID
    baseGroup: Id)                // m_baseGroupID

  const EMPTY := Book(map[], {}, [], 0, GROUP_BASE)

  // ---- the operations ------------------------------------------------------------------------

  function Without(rows: seq<Row>, row: Row): seq<Row> {
    if rows == [] then []
    else
      var n := |rows| - 1;
      Without(rows[..n], row) + (if rows[n] == row then [] else [rows[n]])
  }

  function AddUser(b: Book, applied: bool): Book {
    var id := b.baseUser + 1;
    if applied then b.(baseUser := id, users := b.users + {id}, friends := b.friends[id := {}])
    else b.(baseUser := id)
  }

  function AddGroup(b: Book, applied: bool): Book {
    var id := b.baseGroup + 1;
    if applied then b.(baseGroup := id, users := b.users + {id}, friends := b.friends[id := {}])
    else b.(baseGroup := id)
  }

  /** The second lookup happens only if the first one succeeded. */
  function Befriend(friends: map<Id, set<Id>>, small: Id, great: Id): map<Id, set<Id>> {
    if small !in friends then friends
    else
      var half := friends[small := friends[small] + {great}];
      if great !in half then half else half[great := half[great] + {small}]
  }

  function Unfriend(friends: map<Id, set<Id>>, a: Id, b: Id): map<Id, set<Id>> {
    var half := if a in friends then friends[a := friends[a] - {b}] else friends;
    if b in half then half[b := half[b] - {a}] else half
  }

  function Make(b: Book, small: Id, great: Id, applied: bool): Book {
    if small >= great || !applied then b
    else b.(rows := b.rows + [Row(small, great)], friends := Befriend(b.friends, small, great))
  }

  function Release(b: Book, small: Id, great: Id, applied: bool): Book {
    if small >= great || !applied then b
    else b.(rows := Without(b.rows, Row(small, great)), friends := Unfriend(b.friends, small, great))
  }

  function Delete(b: Book, user: Id, friend: Id, applied: bool): Book {
    if !applied then b
    else
      var small := if user < friend then user else friend;
      var great := if user < friend then friend else user;
      b.(rows := Without(b.rows, Row(small, great)), friends := Unfriend(b.friends, user, friend))
  }

  /** The friends that LoadRelationshipFromDB collects for one user. */
  function Partners(rows: seq<Row>, u: Id): set<Id> {
    if rows == [] then {}
    else
      var n := |rows| - 1;
      var row := rows[n];
      Partners(rows[..n], u) + (if row.small == u then {row.great} else if row.great == u then {row.small} else {})
  }

  /** The largest id below (or from) the group boundary, or the start value. */
  ghost predicate IsBase(users: set<Id>, baseUser: Id, baseGroup: Id) {
    && (forall u | u in users :: if u < GROUP_BASE then u <= baseUser else u <= baseGroup)
    && (baseUser == 0 || (baseUser in users && baseUser < GROUP_BASE))
    && (baseGroup == GROUP_BASE || (baseGroup in users && baseGroup >= GROUP_BASE))
  }

  /** How LoadUserFromDB moves the bases for one more row. */
  lemma BaseGrows(users: set<Id>, baseUser: Id, baseGroup: Id, id: Id)
    requires IsBase(users, baseUser, baseGroup) && baseUser >= 0 && baseGroup >= GROUP_BASE
    ensures IsBase(users + {id},
                   if id < GROUP_BASE && id > baseUser then id else baseUser,
                   if id >= GROUP_BASE && id > baseGroup then id else baseGroup)
  {
  }

  // ---- the invariant -------------------------------------------------------------------------

  predicate Related(rows: seq<Row>, u: Id, f: Id) {
    Row(u, f) in rows || Row(f, u) in rows
  }

  /** Cache and tables agree. */
  ghost predicate Agree(b: Book) {
    && b.friends.Keys == b.users
    && (forall r | r in b.rows :: r.small < r.great && r.small in b.users && r.great in b.users)
    && (forall u, f | u in b.friends :: f in b.friends[u] <==> Related(b.rows, u, f))
  }

  /** No id was given out beyond the bases. */
  predicate Counted(b: Book) {
    && (forall u | u in b.users :: 0 < u && if u < GROUP_BASE then u <= b.baseUser else u <= b.baseGroup)
    && 0 <= b.baseUser < GROUP_BASE <= b.baseGroup
  }

  lemma {:induction false} WithoutHas(rows: seq<Row>, row: Row, r: Row)
    ensures r in Without(rows, row) <==> r in rows && r != row
  {
    if rows == [] {
    } else {
      var n := |rows| - 1;
      WithoutHas(rows[..n], row, r);
      assert rows == rows[..n] + [rows[n]];
    }
  }

  lemma {:induction false} PartnersHas(rows: seq<Row>, u: Id, f: Id)
    requires forall r | r in rows :: r.small < r.great
    ensures f in Partners(rows, u) <==> Related(rows, u, f)
  {
    if rows == [] {
    } else {
      var n := |rows| - 1;
      PartnersHas(rows[..n], u, f);
      assert rows == rows[..n] + [rows[n]];
    }
  }

  // ---- steps ---------------------------------------------------------------------------------

  datatype Step =
    | Register(applied: bool)
    | Found(applied: bool)
    | Befriends(small: Id, great: Id, applied: bool)
    | Releases(small: Id, great: Id, applied: bool)
    | Deletes(user: Id, friend: Id, applied: bool)
    | Restart(baseUser: Id, baseGroup: Id)

  /** Registrations stay below the group boundary; new friends are registered; init() finds the bases. */
  ghost predicate Enabled(b: Book, step: Step) {
    match step
    case Register(_) => b.baseUser + 1 < GROUP_BASE
    case Found(_) => true
    case Befriends(small, great, _) => small in b.users && great in b.users
    case Releases(_, _, _) => true
    case Deletes(_, _, _) => true
    case Restart(baseUser, baseGroup) => IsBase(b.users, baseUser, baseGroup)
  }

  function Apply(b: Book, step: Step): Book {
    match step
    case Register(applied) => AddUser(b, applied)
    case Found(applied) => AddGroup(b, applied)
    case Befriends(small, great, applied) => Make(b, small, great, applied)
    case Releases(small, great, applied) => Release(b, small, great, applied)
    case Deletes(user, friend, applied) => Delete(b, user, friend, applied)
    case Restart(baseUser, baseGroup) =>
      b.(friends := Reloaded(b.users, b.rows), baseUser := baseUser, baseGroup := baseGroup)
  }

  /** What init() builds from the tables. */
  function Reloaded(users: set<Id>, rows: seq<Row>): map<Id, set<Id>> {
    map u | u in users :: Partners(rows, u)
  }

  ghost predicate Legal(b: Book, steps: seq<Step>)
    decreases |steps|
  {
    steps == [] || (Enabled(b, steps[0]) && Legal(Apply(b, steps[0]), steps[1..]))
  }

  function Run(b: Book, steps: seq<Step>): Book
    decreases |steps|
  {
    if steps == [] then b else Run(Apply(b, steps[0]), steps[1..])
  }

  /** A new id is in neither table nor cache, so the primary key never collides. */
  lemma NewIdsAreFresh(b: Book)
    requires Agree(b) && Counted(b)
    ensures b.baseUser + 1 < GROUP_BASE ==> b.baseUser + 1 !in b.users && b.baseUser + 1 !in b.friends
    ensures b.baseGroup + 1 !in b.users && b.baseGroup + 1 !in b.friends
  {
  }

  lemma AddKeepsAgree(b: Book, id: Id)
    requires Agree(b) && id !in b.users
    ensures Agree(b.(users := b.users + {id}, friends := b.friends[id := {}]))
  {
    var r := b.(users := b.users + {id}, friends := b.friends[id := {}]);
    assert r.friends.Keys == r.users;
    forall f
      ensures !Related(b.rows, id, f)
    {
    }
  }

  lemma BefriendRelates(b: Book, small: Id, great: Id)
    requires Agree(b) && small < great && small in b.users && great in b.users
    ensures Agree(Make(b, small, great, true))
  {
    var r := Make(b, small, great, true);
    assert r.friends.Keys == b.friends.Keys;
    forall u, f | u in r.friends
      ensures f in r.friends[u] <==> Related(r.rows, u, f)
    {
      assert Related(r.rows, u, f) <==> Related(b.rows, u, f) || (u == small && f == great) || (u == great && f == small);
    }
  }

  /** Removing the pair from both friend sets matches deleting its row. */
  lemma UnfriendRelates(b: Book, x: Id, y: Id)
    requires Agree(b)
    ensures var row := if x < y then Row(x, y) else Row(y, x);
            Agree(b.(rows := Without(b.rows, row), friends := Unfriend(b.friends, x, y)))
  {
    var row := if x < y then Row(x, y) else Row(y, x);
    var r := b.(rows := Without(b.rows, row), friends := Unfriend(b.friends, x, y));
    assert r.friends.Keys == b.friends.Keys;
    forall q | q in r.rows
      ensures q in b.rows
    {
      WithoutHas(b.rows, row, q);
    }
    forall u, f | u in r.friends
      ensures f in r.friends[u] <==> Related(r.rows, u, f)
    {
      WithoutHas(b.rows, row, Row(u, f));
      WithoutHas(b.rows, row, Row(f, u));
      assert f in r.friends[u] <==> f in b.friends[u] && !(u == x && f == y) && !(u == y && f == x);
    }
  }

  lemma StepKeepsAgree(b: Book, step: Step)
    requires Agree(b) && Counted(b) && Enabled(b, step)
    ensures Agree(Apply(b, step)) && Counted(Apply(b, step))
  {
    NewIdsAreFresh(b);
    match step
    case Register(applied) => AddKeepsAgree(b, b.baseUser + 1);
    case Found(applied) => AddKeepsAgree(b, b.baseGroup + 1);
    case Befriends(small, great, applied) =>
      if small < great {
        BefriendRelates(b, small, great);
      }
    case Releases(small, great, applied) =>
      if small < great {
        UnfriendRelates(b, small, great);
      }
    case Deletes(user, friend, applied) => UnfriendRelates(b, user, friend);
    case Restart(baseUser, baseGroup) => AgreeReloads(b);
  }

  lemma {:induction false} RunKeepsAgree(b: Book, steps: seq<Step>)
    requires Agree(b) && Counted(b) && Legal(b, steps)
    ensures Agree(Run(b, steps)) && Counted(Run(b, steps))
    decreases |steps|
  {
    hide Agree, Counted;
    if steps == [] {
    } else {
      StepKeepsAgree(b, steps[0]);
      RunKeepsAgree(Apply(b, steps[0]), steps[1..]);
    }
  }

  // ---- the results ---------------------------------------------------------------------------

  /** After any run, restarts included, friendship is symmetric and is what the relation table says. */
  lemma FriendshipIsSymmetric(steps: seq<Step>, u: Id, f: Id)
    requires Legal(EMPTY, steps)
    ensures var b := Run(EMPTY, steps);
            u in b.users ==>
              && u in b.friends
              && (f in b.friends[u] <==> Row(if u < f then u else f, if u < f then f else u) in b.rows)
              && (f in b.friends[u] ==> f in b.friends && u in b.friends[f])
              && u !in b.friends[u]
  {
    RunKeepsAgree(EMPTY, steps);
    var b := Run(EMPTY, steps);
    if u in b.users {
      assert f in b.friends[u] <==> Related(b.rows, u, f);
      assert u in b.friends[u] <==> Related(b.rows, u, u);
      if Related(b.rows, u, f) {
        assert f in b.users;
        assert Related(b.rows, f, u);
      }
    }
  }

  // ---- friendship by history -----------------------------------------------------------------

  /** An applied statement that makes the pair friends, the smaller id first. */
  predicate Joins(step: Step, x: Id, y: Id) {
    step == Befriends(x, y, true)
  }

  /** One that ends their friendship; deleting takes the ids in either order. */
  predicate Parts(step: Step, x: Id, y: Id) {
    step == Releases(x, y, true) || step == Deletes(x, y, true) || step == Deletes(y, x, true)
  }

  /** The last of these statements in a run, if there is one, decides whether the pair are friends. */
  predicate FriendsAfter(before: bool, steps: seq<Step>, x: Id, y: Id)
    decreases |steps|
  {
    if steps == [] then before
    else FriendsAfter(Joins(steps[0], x, y) || (before && !Parts(steps[0], x, y)), steps[1..], x, y)
  }

  lemma StepRelates(b: Book, step: Step, x: Id, y: Id)
    requires x < y
    ensures Row(x, y) in Apply(b, step).rows <==> Joins(step, x, y) || (Row(x, y) in b.rows && !Parts(step, x, y))
  {
    match step
    case Releases(small, great, _) => WithoutHas(b.rows, Row(small, great), Row(x, y));
    case Deletes(user, friend, _) =>
      WithoutHas(b.rows, if user < friend then Row(user, friend) else Row(friend, user), Row(x, y));
    case _ =>
  }

  lemma {:induction false} RunRelates(b: Book, steps: seq<Step>, x: Id, y: Id)
    requires x < y
    ensures Row(x, y) in Run(b, steps).rows <==> FriendsAfter(Row(x, y) in b.rows, steps, x, y)
    decreases |steps|
  {
    hide Apply, Joins, Parts;
    if steps == [] {
    } else {
      StepRelates(b, steps[0], x, y);
      RunRelates(Apply(b, steps[0]), steps[1..], x, y);
    }
  }

  /** Two users are friends, each in the other's set, exactly if the last applied statement on the pair made them so. */
  lemma FriendsByHistory(steps: seq<Step>, x: Id, y: Id)
    requires Legal(EMPTY, steps) && x < y
    ensures var b := Run(EMPTY, steps);
            && (x in b.friends && y in b.friends[x] <==> FriendsAfter(false, steps, x, y))
            && (y in b.friends && x in b.friends[y] <==> FriendsAfter(false, steps, x, y))
  {
    RunKeepsAgree(EMPTY, steps);
    RunRelates(EMPTY, steps, x, y);
    FriendshipIsSymmetric(steps, x, y);
    FriendshipIsSymmetric(steps, y, x);
    hide Run, Legal, FriendsAfter;
  }

  /** Registrations of users and groups that the database applied. */
  function Registrations(steps: seq<Step>): nat {
    if steps == [] then 0
    else (if steps[0] == Register(true) || steps[0] == Found(true) then 1 else 0) + Registrations(steps[1..])
  }

  /** Registrations of users, and of groups, applied or not. */
  function Attempts(steps: seq<Step>): (n: (nat, nat)) {
    if steps == [] then (0, 0)
    else
      var (users, groups) := Attempts(steps[1..]);
      (users + (if steps[0].Register? then 1 else 0), groups + (if steps[0].Found? then 1 else 0))
  }

  /** Until the next restart every attempt uses up one id of its kind, so ids are given out without gaps or reuse. */
  lemma {:induction false} IdsInOrder(b: Book, steps: seq<Step>)
    requires Legal(b, steps) && forall i | 0 <= i < |steps| :: !steps[i].Restart?
    ensures Run(b, steps).baseUser == b.baseUser + Attempts(steps).0
    ensures Run(b, steps).baseGroup == b.baseGroup + Attempts(steps).1
    decreases |steps|
  {
    if steps == [] {
    } else {
      IdsInOrder(Apply(b, steps[0]), steps[1..]);
    }
  }

  /** Each applied one adds one user that was not there before, and nothing else does. */
  lemma {:induction false} EveryRegistrationCounts(b: Book, steps: seq<Step>)
    requires Agree(b) && Counted(b) && Legal(b, steps)
    ensures b.users <= Run(b, steps).users && |Run(b, steps).users| == |b.users| + Registrations(steps)
    decreases |steps|
  {
    if steps == [] {
    } else {
      NewIdsAreFresh(b);
      StepKeepsAgree(b, steps[0]);
      EveryRegistrationCounts(Apply(b, steps[0]), steps[1..]);
    }
  }

  /** A restart loses no friendship and invents none. */
  lemma ReloadRestores(steps: seq<Step>)
    requires Legal(EMPTY, steps)
    ensures var b := Run(EMPTY, steps);
            Reloaded(b.users, b.rows) == b.friends
  {
    RunKeepsAgree(EMPTY, steps);
    AgreeReloads(Run(EMPTY, steps));
  }

  lemma AgreeReloads(b: Book)
    requires Agree(b)
    ensures Reloaded(b.users, b.rows) == b.friends
  {
    forall u | u in b.users
      ensures Partners(b.rows, u) == b.friends[u]
    {
      forall f
        ensures f in Partners(b.rows, u) <==> f in b.friends[u]
      {
        PartnersHas(b.rows, u, f);
      }
    }
  }

  /** What init() builds when the relation queries of some users fail: it goes on without them. */
  function ReloadedExcept(users: set<Id>, failing: set<Id>, rows: seq<Row>): map<Id, set<Id>> {
    map u | u in users :: if u in failing then {} else Partners(rows, u)
  }

  /** Such a reload is complete exactly if the users concerned had no friends. */
  lemma PartialReload(b: Book, failing: set<Id>)
    requires Agree(b)
    ensures ReloadedExcept(b.users, failing, b.rows) == b.friends <==>
            forall u | u in failing && u in b.friends :: b.friends[u] == {}
  {
    AgreeReloads(b);
    var r := ReloadedExcept(b.users, failing, b.rows);
    assert forall u | u in b.users :: Partners(b.rows, u) == Reloaded(b.users, b.rows)[u] == b.friends[u];
    if forall u | u in failing && u in b.friends :: b.friends[u] == {} {
      assert r == b.friends;
    } else {
      var u :| u in failing && u in b.friends && b.friends[u] != {};
      assert r[u] != b.friends[u];
    }
  }

  /** With the pair applied to the table, the cache follows exactly if both ids are registered. */
  lemma MakeNeedsRegistered(b: Book, small: Id, great: Id)
    requires Agree(b) && small < great
    ensures Agree(Make(b, small, great, true)) <==> small in b.users && great in b.users
  {
    var r := Make(b, small, great, true);
    if small in b.users && great in b.users {
      BefriendRelates(b, small, great);
    } else {
      assert Row(small, great) in r.rows;
    }
  }

  /** The edge left behind when only the smaller id is registered: one-sided, and in the table. */
  lemma OneSidedEdge(b: Book, small: Id, great: Id)
    requires Agree(b) && small < great && small in b.users && great !in b.users
    ensures var r := Make(b, small, great, true);
            great in r.friends[small] && great !in r.friends && Row(small, great) in r.rows
  {
  }
}
