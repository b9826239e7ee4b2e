/** `getAllUsers`: every user except the caller, with the public columns only. */
module UserController {
  import opened Common
  import opened Collections
  import opened Models

  /** `attributes: ["id", "displayName", "email"]`. */
  datatype UserView = UserView(id: Id, displayName: string, email: string)

  /** The ids of all users but `caller`, ascending. */
  function OtherUsers(users: map<Id, User>, caller: Id): (ids: seq<Id>)
    ensures forall i :: i in ids <==> i in users && i != caller
    ensures forall i, j :: 0 <= i < j < |ids| ==> ids[i] < ids[j]
    ensures |ids| == |users.Keys - {caller}|
  {
    Ascending(users.Keys - {caller})
  }

  /** The view of each id in turn. */
  function Views(users: map<Id, User>, ids: seq<Id>): (vs: seq<UserView>)
    requires forall i :: i in ids ==> i in users
    ensures |vs| == |ids|
    ensures forall k :: 0 <= k < |ids| ==>
      vs[k] == UserView(ids[k], users[ids[k]].displayName, users[ids[k]].email)
  {
    if ids == [] then [] else [UserView(ids[0], users[ids[0]].displayName, users[ids[0]].email)] + Views(users, ids[1..])
  }

  /** `User.findAll({ where: { id: { [Op.ne]: caller } } })`. */
  function GetAllUsers(users: map<Id, User>, caller: Id): (r: seq<UserView>)
    ensures |r| == |users| - (if caller in users then 1 else 0)
    ensures forall k :: 0 <= k < |r| ==> r[k].id in users && r[k].id != caller
    ensures forall k :: 0 <= k < |r| && r[k].id in users ==>
      r[k].displayName == users[r[k].id].displayName && r[k].email == users[r[k].id].email
    ensures forall id :: id in users && id != caller ==> exists k :: 0 <= k < |r| && r[k].id == id
    ensures forall j, k :: 0 <= j < k < |r| ==> r[j].id < r[k].id
  {
    var ids := OtherUsers(users, caller);
    var r := Views(users, ids);
    OthersListed(users, caller, ids, r);
    r
  }

  /** The views of the other users' ascending ids list each other user once, by ascending id. */
  lemma OthersListed(users: map<Id, User>, caller: Id, ids: seq<Id>, r: seq<UserView>)
    requires forall i :: i in ids <==> i in users && i != caller
    requires forall i, j :: 0 <= i < j < |ids| ==> ids[i] < ids[j]
    requires |ids| == |users.Keys - {caller}|
    requires |r| == |ids|
    requires forall k :: 0 <= k < |ids| ==> r[k] == UserView(ids[k], users[ids[k]].displayName, users[ids[k]].email)
    ensures |r| == |users| - (if caller in users then 1 else 0)
    ensures forall k :: 0 <= k < |r| ==> r[k].id in users && r[k].id != caller
    ensures forall k :: 0 <= k < |r| && r[k].id in users ==>
      r[k].displayName == users[r[k].id].displayName && r[k].email == users[r[k].id].email
    ensures forall id :: id in users && id != caller ==> exists k :: 0 <= k < |r| && r[k].id == id
    ensures forall j, k :: 0 <= j < k < |r| ==> r[j].id < r[k].id
  {
    forall k | 0 <= k < |r| ensures r[k].id in users && r[k].id != caller {
      assert ids[k] in ids;
    }
    AllListed(users, caller, ids, r);
    OthersCount(users, caller);
  }

  lemma AllListed(users: map<Id, User>, caller: Id, ids: seq<Id>, r: seq<UserView>)
    requires forall i :: i in ids <==> i in users && i != caller
    requires |r| == |ids| && forall k :: 0 <= k < |ids| ==> r[k].id == ids[k]
    ensures forall id :: id in users && id != caller ==> exists k :: 0 <= k < |r| && r[k].id == id
  {
    forall id | id in users && id != caller ensures exists k :: 0 <= k < |r| && r[k].id == id {
      var k :| 0 <= k < |ids| && ids[k] == id;
      assert r[k].id == id;
    }
  }

  lemma OthersCount(users: map<Id, User>, caller: Id)
    ensures |users.Keys - {caller}| == |users| - (if caller in users then 1 else 0)
  {
    if caller in users {
      assert users.Keys == (users.Keys - {caller}) + {caller};
    } else {
      assert users.Keys - {caller} == users.Keys;
    }
  }
}
