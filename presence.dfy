/** The process-wide registry of connected users (`onlineUsers`) and the pushes sent to their sockets. */
module Presence {
  import opened Common

  datatype OnlineUser = OnlineUser(id: Id, email: string, displayName: Option<string>, socketId: string)

  /** The socket events the handlers emit, with their `content` text. */
  datatype Event = InvitationCome(content: string) | AssignmentCome(content: string)

  /** One `io.to(socketId).emit(event)`. */
  datatype Push = Push(socketId: string, event: Event)

  /** No user id occurs in two entries. */
  ghost predicate UniqueIds(online: seq<OnlineUser>)
  {
    forall i, j :: 0 <= i < j < |online| ==> online[i].id != online[j].id
  }

  /** `onlineUsers.some((user) => user.id === id)`. */
  predicate IsOnline(online: seq<OnlineUser>, id: Id)
  {
    exists i :: 0 <= i < |online| && online[i].id == id
  }

  /** The socket of the first entry for `id` (`onlineUsers.filter(...)[0].socketId`), if there is one. */
  function SocketOf(online: seq<OnlineUser>, id: Id): (r: Option<string>)
    ensures r.Some? <==> IsOnline(online, id)
    ensures r.Some? ==> exists i :: 0 <= i < |online| && online[i].id == id && online[i].socketId == r.value
    ensures UniqueIds(online) ==> forall i :: 0 <= i < |online| && online[i].id == id ==> r == Some(online[i].socketId)
  {
    if online == [] then None
    else if online[0].id == id then Some(online[0].socketId)
    else
      var r := SocketOf(online[1..], id);
      assert forall i :: 1 <= i < |online| ==> online[i] == online[1..][i - 1];
      r
  }

  /** The pushes a notification to `id` produces: one to its socket when it is online, none otherwise. */
  function PushTo(online: seq<OnlineUser>, id: Id, event: Event): (r: seq<Push>)
    ensures |r| <= 1
    ensures |r| == 1 <==> IsOnline(online, id)
    ensures forall p :: p in r ==> p.event == event && Some(p.socketId) == SocketOf(online, id)
  {
    match SocketOf(online, id)
    case Some(s) => [Push(s, event)]
    case None => []
  }

  /** `onlineUsers.filter((user) => user.socketId !== socketId)`. */
  function WithoutSocket(online: seq<OnlineUser>, socketId: string): (r: seq<OnlineUser>)
    ensures |r| <= |online|
    ensures forall e :: e in r <==> e in online && e.socketId != socketId
  {
    if online == [] then []
    else
      var rest := WithoutSocket(online[1..], socketId);
      assert online == [online[0]] + online[1..];
      if online[0].socketId == socketId then rest else [online[0]] + rest
  }

  /** Filtering leaves a registry alone when no entry has that socket. */
  lemma {:induction false} WithoutAbsentSocket(online: seq<OnlineUser>, socketId: string)
    requires forall i :: 0 <= i < |online| ==> online[i].socketId != socketId
    ensures WithoutSocket(online, socketId) == online
  {
    if online != [] {
      WithoutAbsentSocket(online[1..], socketId);
      assert online == [online[0]] + online[1..];
    }
  }

  lemma Associative<T>(x: seq<T>, y: seq<T>, z: seq<T>)
    ensures x + (y + z) == (x + y) + z
  {
  }

  /** Filtering an entry in front of a registry. */
  lemma WithoutSocketCons(e: OnlineUser, b: seq<OnlineUser>, socketId: string)
    ensures WithoutSocket([e] + b, socketId) == (if e.socketId == socketId then [] else [e]) + WithoutSocket(b, socketId)
  {
    var l := [e] + b;
    assert l[0] == e && l[1..] == b;
  }

  /** Filtering works piecewise, so the surviving entries keep their relative order. */
  lemma {:induction false} WithoutSocketAppend(a: seq<OnlineUser>, b: seq<OnlineUser>, socketId: string)
    ensures WithoutSocket(a + b, socketId) == WithoutSocket(a, socketId) + WithoutSocket(b, socketId)
  {
    if a == [] {
      assert a + b == b;
    } else {
      var e := a[0];
      assert a == [e] + a[1..];
      assert a + b == [e] + (a[1..] + b);
      WithoutSocketCons(e, a[1..] + b, socketId);
      WithoutSocketCons(e, a[1..], socketId);
      WithoutSocketAppend(a[1..], b, socketId);
      var front := if e.socketId == socketId then [] else [e];
      var restA := WithoutSocket(a[1..], socketId);
      var restB := WithoutSocket(b, socketId);
      Associative(front, restA, restB);
    }
  }

  /** Filtering keeps user ids unique. */
  lemma {:induction false} WithoutSocketKeepsUnique(online: seq<OnlineUser>, socketId: string)
    requires UniqueIds(online)
    ensures UniqueIds(WithoutSocket(online, socketId))
  {
    if online != [] {
      var e := online[0];
      var tail := online[1..];
      assert online == [e] + tail;
      assert UniqueIds(tail) by {
        forall i, j | 0 <= i < j < |tail| ensures tail[i].id != tail[j].id {
          assert tail[i] == online[i + 1] && tail[j] == online[j + 1];
        }
      }
      WithoutSocketKeepsUnique(tail, socketId);
      WithoutSocketCons(e, tail, socketId);
      var rest := WithoutSocket(tail, socketId);
      if e.socketId != socketId {
        forall k | 0 <= k < |rest| ensures rest[k].id != e.id {
          assert rest[k] in rest;
          var m :| 0 <= m < |tail| && tail[m] == rest[k];
          assert tail[m] == online[m + 1];
        }
        ConsUnique(e, rest);
      }
    }
  }

  /** An entry whose id the unique rest does not use keeps ids unique in front of it. */
  lemma {:induction false} ConsUnique(e: OnlineUser, rest: seq<OnlineUser>)
    requires UniqueIds(rest) && forall k :: 0 <= k < |rest| ==> rest[k].id != e.id
    ensures UniqueIds([e] + rest)
  {
    var r := [e] + rest;
    forall i, j | 0 <= i < j < |r| ensures r[i].id != r[j].id {
      if i > 0 { assert r[i] == rest[i - 1]; }
      assert r[j] == rest[j - 1];
    }
  }

  /** Where `onlineUsers` lives, together with the pushes the socket server has sent. */
  class Realtime {
    var onlineUsers: seq<OnlineUser>
    var outbox: seq<Push>

    ghost predicate Valid()
      reads this
    {
      UniqueIds(onlineUsers)
    }

    /** The registry starts empty and nothing has been pushed. */
    constructor ()
      ensures Valid()
      ensures onlineUsers == [] && outbox == []
    {
      onlineUsers, outbox := [], [];
    }

    /** The `addNewUser` socket event: registers the session unless the user already has one
        (the first session wins). */
    method AddNewUser(socketId: string, id: Id, email: string)
      requires Valid()
      modifies this`onlineUsers
      ensures Valid()
      ensures IsOnline(old(onlineUsers), id) ==> onlineUsers == old(onlineUsers)
      ensures !IsOnline(old(onlineUsers), id) ==>
        onlineUsers == old(onlineUsers) + [OnlineUser(id, email, None, socketId)]
    {
      if !IsOnline(onlineUsers, id) {
        onlineUsers := onlineUsers + [OnlineUser(id, email, None, socketId)];
      }
    }

    /** The `disconnect` socket event: drops every entry registered with that socket. */
    method Disconnect(socketId: string)
      requires Valid()
      modifies this`onlineUsers
      ensures Valid()
      ensures onlineUsers == WithoutSocket(old(onlineUsers), socketId)
      ensures forall i :: 0 <= i < |onlineUsers| ==> onlineUsers[i].socketId != socketId
    {
      WithoutSocketKeepsUnique(onlineUsers, socketId);
      onlineUsers := WithoutSocket(onlineUsers, socketId);
      assert forall i :: 0 <= i < |onlineUsers| ==> onlineUsers[i] in onlineUsers;
    }

    /** Sends `event` to the user's registered socket when the user is online, and drops it otherwise. */
    method Notify(id: Id, event: Event)
      modifies this`outbox
      ensures outbox == old(outbox) + PushTo(onlineUsers, id, event)
    {
      var target := SocketOf(onlineUsers, id);
      if target.Some? {
        outbox := outbox + [Push(target.value, event)];
      }
    }
  }
}
