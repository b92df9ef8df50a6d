/**
 The user manager as an object (IMServer/UserManager.cpp): a list and a map that share their User
 objects, over the two tables.
 */
module UserManager {
  import opened Options
  import opened G = FriendGraph

  class User {
    const userid: Id
    var friends: set<Id>

    constructor (userid: Id)
      ensures this.userid == userid && friends == {}
    {
      this.userid := userid;
      friends := {};
    }
  }

  function IdsOf(us: seq<User>): seq<Id> {
    seq(|us|, i requires 0 <= i < |us| => us[i].userid)
  }

  function NoFriends(ids: set<Id>): map<Id, set<Id>> {
    map id | id in ids :: {}
  }

  class UserManager {
    var cachedUsers: seq<User>
    var mapUsers: map<Id, User>
    var baseUserID: Id
    var baseGroupID: Id
    var users: set<Id>            // t_user
    var rows: seq<Row>            // t_user_relationship
    ghost var owned: set<User>

    /** The list and the map hold the same objects, each under its own id. */
    ghost predicate Shared()
      reads this`cachedUsers, this`mapUsers, this`owned
    {
      && (forall id | id in mapUsers ::
            mapUsers[id] in owned && mapUsers[id].userid == id && mapUsers[id] in cachedUsers)
      && (forall i | 0 <= i < |cachedUsers| ::
            cachedUsers[i].userid in mapUsers && mapUsers[cachedUsers[i].userid] == cachedUsers[i])
      && (forall i, j | 0 <= i < j < |cachedUsers| :: cachedUsers[i] != cachedUsers[j])
    }

    ghost function Friends(): (m: map<Id, set<Id>>)
      requires Shared()
      reads this`cachedUsers, this`mapUsers, this`owned, owned
      ensures m.Keys == mapUsers.Keys
    {
      map id | id in mapUsers :: mapUsers[id].friends
    }

    ghost function View(): Book
      requires Shared()
      reads this, owned
    {
      Book(Friends(), users, rows, baseUserID, baseGroupID)
    }

    /** The ids of the cached list, in order. */
    ghost function CachedIds(): (ids: seq<Id>)
      reads this`cachedUsers
      ensures |ids| == |cachedUsers|
    {
      IdsOf(cachedUsers)
    }

    constructor (users: set<Id>, rows: seq<Row>)
      ensures Shared() && View() == Book(map[], users, rows, 0, GROUP_BASE) && cachedUsers == [] && owned == {}
    {
      cachedUsers, mapUsers, baseUserID, baseGroupID := [], map[], 0, GROUP_BASE;
      this.users, this.rows, owned := users, rows, {};
    }

    /** make_shared<User>, pushed on the list and entered in the map. */
    method Cache(id: Id)
      requires Shared() && id !in mapUsers
      modifies this`cachedUsers, this`mapUsers, this`owned
      ensures Shared() && fresh(owned - old(owned)) && old(owned) <= owned
      ensures Friends() == old(Friends())[id := {}]
      ensures CachedIds() == old(CachedIds()) + [id]
    {
      var u := new User(id);
      assert forall k | k in mapUsers :: mapUsers[k] != u;
      cachedUsers := cachedUsers + [u];
      mapUsers := mapUsers[id := u];
      owned := owned + {u};
      assert cachedUsers[|cachedUsers| - 1] == u;
    }

    /**
     The statement fails or is applied; the primary key refuses an id that is there already. Only ids
     of the table are ever cached, also when loading failed and the cache holds fewer.
     */
    method AddUser(applied: bool) returns (ok: bool, id: Id)
      requires Shared() && mapUsers.Keys <= users && (applied ==> baseUserID + 1 !in users)
      modifies this
      ensures Shared() && fresh(owned - old(owned)) && old(owned) <= owned
      ensures mapUsers.Keys <= users && ok == applied && View() == G.AddUser(old(View()), applied)
      ensures ok ==> id == baseUserID && id in mapUsers
    {
      hide UserManager.Shared, UserManager.CachedIds;
      baseUserID := baseUserID + 1;
      ok, id := applied, baseUserID;
      if applied {
        users := users + {baseUserID};
        Cache(baseUserID);
      }
    }

    method AddGroup(applied: bool) returns (ok: bool, groupid: Id)
      requires Shared() && mapUsers.Keys <= users && (applied ==> baseGroupID + 1 !in users)
      modifies this
      ensures Shared() && fresh(owned - old(owned)) && old(owned) <= owned
      ensures mapUsers.Keys <= users && ok == applied && View() == G.AddGroup(old(View()), applied)
      ensures groupid == baseGroupID && (ok ==> groupid in mapUsers)
    {
      hide UserManager.Shared, UserManager.CachedIds;
      baseGroupID := baseGroupID + 1;
      groupid := baseGroupID;
      ok := applied;
      if applied {
        users := users + {groupid};
        Cache(groupid);
      }
    }

    method SetFriends(id: Id, friends: set<Id>)
      requires Shared() && id in mapUsers
      modifies owned`friends
      ensures Shared() && Friends() == old(Friends())[id := friends]
    {
      assert forall k | k in mapUsers && k != id :: mapUsers[k] != mapUsers[id];
      mapUsers[id].friends := friends;
    }

    method MakeFriendRelationship(smallid: Id, greatid: Id, applied: bool) returns (ok: bool)
      requires Shared()
      modifies this`rows, owned`friends
      ensures Shared() && View() == G.Make(old(View()), smallid, greatid, applied)
      ensures ok == (smallid < greatid && applied && smallid in mapUsers && greatid in mapUsers)
    {
      if smallid >= greatid {
        return false;
      }
      if !applied {
        return false;
      }
      rows := rows + [Row(smallid, greatid)];
      if smallid !in mapUsers {
        return false;
      }
      SetFriends(smallid, mapUsers[smallid].friends + {greatid});
      if greatid !in mapUsers {
        return false;
      }
      SetFriends(greatid, mapUsers[greatid].friends + {smallid});
      return true;
    }

    method ReleaseFriendRelationship(smallid: Id, greatid: Id, applied: bool) returns (ok: bool)
      requires Shared()
      modifies this`rows, owned`friends
      ensures Shared() && View() == G.Release(old(View()), smallid, greatid, applied)
      ensures ok == (smallid < greatid && applied)
    {
      if smallid >= greatid || !applied {
        return false;
      }
      rows := Without(rows, Row(smallid, greatid));
      EraseBoth(smallid, greatid);
      return true;
    }

    method DeleteFriendToUser(userid: Id, friendid: Id, applied: bool) returns (ok: bool)
      requires Shared()
      modifies this`rows, owned`friends
      ensures Shared() && View() == G.Delete(old(View()), userid, friendid, applied)
      ensures ok == applied
    {
      var smallid := if userid < friendid then userid else friendid;
      var greatid := if userid < friendid then friendid else userid;
      if !applied {
        return false;
      }
      rows := Without(rows, Row(smallid, greatid));
      EraseBoth(userid, friendid);
      return true;
    }

    method EraseBoth(a: Id, b: Id)
      requires Shared()
      modifies owned`friends
      ensures Shared() && Friends() == Unfriend(old(Friends()), a, b)
    {
      if a in mapUsers {
        SetFriends(a, mapUsers[a].friends - {b});
      }
      if b in mapUsers {
        SetFriends(b, mapUsers[b].friends - {a});
      }
    }

    // ---- loading -----------------------------------------------------------------------------

    /** The row loop of LoadUserFromDB, for one row. */
    method LoadRow(id: Id, ghost seen: set<Id>)
      requires Shared() && id !in seen && Friends() == NoFriends(seen)
      requires IsBase(seen, baseUserID, baseGroupID) && baseUserID >= 0 && baseGroupID >= GROUP_BASE
      modifies this`cachedUsers, this`mapUsers, this`owned, this`baseUserID, this`baseGroupID
      ensures Shared() && fresh(owned - old(owned)) && old(owned) <= owned
      ensures Friends() == NoFriends(seen + {id})
      ensures IsBase(seen + {id}, baseUserID, baseGroupID) && baseUserID >= 0 && baseGroupID >= GROUP_BASE
      ensures CachedIds() == old(CachedIds()) + [id]
    {
      assert NoFriends(seen)[id := {}] == NoFriends(seen + {id}) && id !in Friends();
      hide *;
      BaseGrows(seen, baseUserID, baseGroupID, id);
      Cache(id);
      if id < GROUP_BASE && id > baseUserID {
        baseUserID := id;
      }
      if id >= GROUP_BASE && id > baseGroupID {
        baseGroupID := id;
      }
    }

    lemma StartsEmpty()
      requires Shared() && cachedUsers == [] && mapUsers == map[]
      ensures Friends() == NoFriends(SetOf([])) && CachedIds() == [] && IsBase(SetOf([]), 0, GROUP_BASE)
    {
    }

    /** One object per row of t_user; the bases become the largest ids on either side of the boundary. */
    method LoadUserFromDB(result: Option<seq<Id>>) returns (ok: bool)
      requires Shared() && cachedUsers == [] && mapUsers == map[] && baseUserID == 0 && baseGroupID == GROUP_BASE
      requires result.Some? ==> Enumerates(result.value, users)
      modifies this`cachedUsers, this`mapUsers, this`owned, this`baseUserID, this`baseGroupID
      ensures Shared() && fresh(owned - old(owned)) && old(owned) <= owned && ok == result.Some?
      ensures ok ==> Friends() == NoFriends(users) && CachedIds() == result.value
      ensures ok ==> IsBase(users, baseUserID, baseGroupID)
    {
      hide *;
      if result.None? {
        return false;
      }
      var ids := result.value;
      var i := 0;
      StartsEmpty();
      SetOfAll(ids, users);
      assert ids[..0] == [];
      while i < |ids|
        invariant 0 <= i <= |ids| && Shared() && fresh(owned - old(owned)) && old(owned) <= owned
        invariant users == old(users) && Friends() == NoFriends(SetOf(ids[..i])) && CachedIds() == ids[..i]
        invariant IsBase(SetOf(ids[..i]), baseUserID, baseGroupID) && baseUserID >= 0 && baseGroupID >= GROUP_BASE
      {
        SetOfNext(ids, users, i);
        LoadRow(ids[i], SetOf(ids[..i]));
        i := i + 1;
      }
      assert ids[..|ids|] == ids;
      return true;
    }

    /** Fills one user's friend set from the rows that name the user. */
    static method LoadRelationshipFromDB(u: User, result: seq<Row>)
      modifies u`friends
      ensures u.friends == old(u.friends) + Partners(result, u.userid)
    {
      var i := 0;
      while i < |result|
        invariant 0 <= i <= |result|
        invariant u.friends == old(u.friends) + Partners(result[..i], u.userid)
      {
        assert result[..i + 1][..i] == result[..i];
        if result[i].small == u.userid {
          u.friends := u.friends + {result[i].great};
        } else if result[i].great == u.userid {
          u.friends := u.friends + {result[i].small};
        }
        i := i + 1;
      }
      assert result[..|result|] == result;
    }

    /** One user's friends, as part of init. */
    method LoadFriends(i: nat)
      requires Shared() && i < |cachedUsers| && cachedUsers[i].userid in Friends() && Friends()[cachedUsers[i].userid] == {}
      modifies owned`friends
      ensures Shared() && Friends() == old(Friends())[cachedUsers[i].userid := Partners(rows, cachedUsers[i].userid)]
    {
      var u := cachedUsers[i];
      assert forall k | k in mapUsers && k != u.userid :: mapUsers[k] != u;
      assert mapUsers[u.userid] == u && u.friends == {};
      // The WHERE clause selects the rows that name the user; the others would be passed over here.
      LoadRelationshipFromDB(u, rows);
      assert u.friends == Partners(rows, u.userid);
    }

    /** Loads all users, then their friends; a relation query that fails leaves its user without any. */
    method Init(result: Option<seq<Id>>, failing: set<Id>) returns (ok: bool)
      requires Shared() && cachedUsers == [] && mapUsers == map[] && baseUserID == 0 && baseGroupID == GROUP_BASE
      requires result.Some? ==> Enumerates(result.value, users)
      modifies this, owned
      ensures Shared() && ok == result.Some? && users == old(users) && rows == old(rows)
      ensures ok ==> Friends() == ReloadedExcept(users, failing, rows)
      ensures ok ==> IsBase(users, baseUserID, baseGroupID)
    {
      ok := LoadUserFromDB(result);
      if !ok {
        return;
      }
      LoadAllFriends(result.value, failing);
    }

    method LoadAllFriends(ghost ids: seq<Id>, failing: set<Id>)
      requires Shared() && Enumerates(ids, users) && CachedIds() == ids && Friends() == NoFriends(users)
      modifies owned`friends
      ensures Shared()
      ensures Friends() == ReloadedExcept(users, failing, rows)
    {
      var i := 0;
      LoadedNone(users, failing, rows);
      while i < |cachedUsers|
        invariant 0 <= i <= |cachedUsers| && Shared() && users == old(users) && rows == old(rows)
        invariant cachedUsers == old(cachedUsers)
        invariant Friends() == Loaded(users, failing, ids[..i], rows)
      {
        hide UserManager.Shared;
        LoadedNext(users, failing, ids, i, rows);
        assert cachedUsers[i].userid == CachedIds()[i] == ids[i];
        hide Loaded, UserManager.CachedIds;
        if cachedUsers[i].userid !in failing {
          LoadFriends(i);
        }
        i := i + 1;
      }
      assert ids[..|ids|] == ids;
    }
  }

  function SetOf(ids: seq<Id>): set<Id> {
    set id | id in ids
  }

  lemma SetOfAll(ids: seq<Id>, users: set<Id>)
    requires Enumerates(ids, users)
    ensures SetOf(ids) == users
  {
    forall id
      ensures id in SetOf(ids) <==> id in users
    {
      assert id in ids <==> id in users;
    }
  }

  lemma SetOfNext(ids: seq<Id>, users: set<Id>, i: nat)
    requires Enumerates(ids, users) && i < |ids|
    ensures ids[i] !in SetOf(ids[..i])
    ensures SetOf(ids[..i + 1]) == SetOf(ids[..i]) + {ids[i]}
    ensures ids[..i + 1] == ids[..i] + [ids[i]]
  {
  }

  lemma LoadedNone(users: set<Id>, failing: set<Id>, rows: seq<Row>)
    ensures Loaded(users, failing, [], rows) == NoFriends(users)
  {
  }

  lemma LoadedNext(users: set<Id>, failing: set<Id>, ids: seq<Id>, i: nat, rows: seq<Row>)
    requires Enumerates(ids, users) && i < |ids|
    ensures var m := Loaded(users, failing, ids[..i], rows);
            && ids[i] in m && m[ids[i]] == {}
            && Loaded(users, failing, ids[..i + 1], rows)
               == if ids[i] in failing then m else m[ids[i] := Partners(rows, ids[i])]
  {
    assert ids[..i + 1] == ids[..i] + [ids[i]];
    assert ids[i] in ids && ids[i] !in ids[..i];
    hide Partners;
  }

  /** Friend sets when the relations of the listed users have been loaded. */
  function Loaded(users: set<Id>, failing: set<Id>, ids: seq<Id>, rows: seq<Row>): map<Id, set<Id>> {
    map u | u in users :: if u in failing || u !in ids then {} else Partners(rows, u)
  }

  ghost predicate Enumerates(ids: seq<Id>, users: set<Id>) {
    && (forall id :: id in ids <==> id in users)
    && (forall i, j | 0 <= i < j < |ids| :: ids[i] != ids[j])
  }
}
