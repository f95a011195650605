/** The server's rooms (`hexomino-server/src/kernel/room.rs`): a room
    holds at most two users, and a manager hands out room ids from a
    counter and moves idle users into rooms. The manager's concurrent map
    and atomic counter are modelled as a map and an integer updated one
    call at a time. */
module Rooms {
  import opened MatchHistories

  /** `RoomId`: an `i64`. */
  type RoomId = int

  /** The room errors these operations raise. */
  datatype RoomError = UserBusy | RoomNotFound(id: RoomId) | RoomIsFull(id: RoomId)

  datatype Result<T> = Ok(value: T) | Err(error: RoomError)

  /** What a user is doing, as far as rooms are concerned. */
  datatype UserStatus = Idle | InRoom(room: RoomId) | InGame

  /** A connected user: a fixed id and name, and a status the room
      operations update in place. */
  class User {
    const id: UserId
    const name: string
    var status: UserStatus

    constructor (id: UserId, name: string)
      ensures this.id == id && this.name == name && status == Idle
    {
      this.id := id;
      this.name := name;
      status := Idle;
    }
  }

  /** The API's view of a user, of a room and of a user in a joined room. */
  datatype ApiUser = ApiUser(id: UserId, name: string)
  datatype ApiRoom = ApiRoom(id: RoomId, users: seq<ApiUser>)
  datatype ApiRoomUser = ApiRoomUser(user: ApiUser, isReady: bool)
  datatype JoinedRoom = JoinedRoom(id: RoomId, users: seq<ApiRoomUser>)

  /** `User::to_api`. */
  function UserToApi(u: User): (a: ApiUser)
    ensures a.id == u.id && a.name == u.name
  {
    ApiUser(u.id, u.name)
  }

  /** A user in a room, with whether they are ready to start. */
  datatype RoomUser = RoomUser(user: User, isReady: bool)

  /** `RoomUser::to_api`. */
  function RoomUserToApi(ru: RoomUser): (a: ApiRoomUser)
    ensures a.user == UserToApi(ru.user) && a.isReady == ru.isReady
  {
    ApiRoomUser(UserToApi(ru.user), ru.isReady)
  }

  /** The most users a room takes. */
  const Capacity := 2

  class Room {
    const id: RoomId
    var users: seq<RoomUser>

    /** A room never holds more than two users. */
    ghost predicate Valid()
      reads this
    {
      |users| <= Capacity
    }

    /** `Room::new`: no users yet. */
    constructor (id: RoomId)
      ensures this.id == id && users == [] && Valid()
    {
      this.id := id;
      users := [];
    }

    /** `to_api`: the room's id and its users, in order. */
    function ToApi(): (r: ApiRoom)
      reads this
      ensures r.id == id && |r.users| == |users|
      ensures forall i :: 0 <= i < |users| ==> r.users[i] == UserToApi(users[i].user)
    {
      ApiRoom(id, seq(|users|, i requires 0 <= i < |users| reads this => UserToApi(users[i].user)))
    }

    /** `to_joined_room`: the room's id and its users with their
        readiness, in order. */
    function ToJoinedRoom(): (r: JoinedRoom)
      reads this
      ensures r.id == id && |r.users| == |users|
      ensures forall i :: 0 <= i < |users| ==> r.users[i] == RoomUserToApi(users[i])
    {
      JoinedRoom(id, seq(|users|, i requires 0 <= i < |users| reads this => RoomUserToApi(users[i])))
    }

    /** `user_enter`: refused with `RoomIsFull`, changing nothing, once two
        users are in; otherwise the user joins at the end, not ready. */
    method UserEnter(user: User) returns (r: Result<()>)
      requires Valid()
      modifies this
      ensures Valid()
      ensures old(|users|) >= Capacity ==> r == Err(RoomIsFull(id)) && users == old(users)
      ensures old(|users|) < Capacity ==> r == Ok(()) && users == old(users) + [RoomUser(user, false)]
    {
      if |users| >= Capacity {
        return Err(RoomIsFull(id));
      }
      users := users + [RoomUser(user, false)];
      return Ok(());
    }
  }

  /** The two API views of a room list the same users in the same order. */
  lemma ViewsAgree(room: Room)
    ensures room.ToApi().id == room.ToJoinedRoom().id
    ensures |room.ToApi().users| == |room.ToJoinedRoom().users|
    ensures forall i :: 0 <= i < |room.ToApi().users| ==>
      room.ToJoinedRoom().users[i].user == room.ToApi().users[i]
  {
  }

  /** Entering adds the user as the last one of both views. */
  lemma EnterShowsUser(before: seq<RoomUser>, user: User, id: RoomId, room: Room)
    requires room.id == id && room.users == before + [RoomUser(user, false)]
    ensures room.ToApi().users[|before|] == UserToApi(user)
    ensures room.ToJoinedRoom().users[|before|] == ApiRoomUser(UserToApi(user), false)
    ensures |room.ToApi().users| == |before| + 1
  {
  }

  class RoomManager {
    var rooms: map<RoomId, Room>
    /** The next room id to hand out. */
    var counter: int

    /** Each room sits under its own id and is valid, and every id handed
        out so far is below the counter. */
    ghost predicate Valid()
      reads this, rooms.Values
    {
      && counter >= 0
      && (forall k :: k in rooms ==> rooms[k].id == k && rooms[k].Valid())
      && (forall k :: k in rooms ==> 0 <= k < counter)
    }

    /** `RoomManager::new`: no rooms, the counter at zero. */
    constructor ()
      ensures Valid() && rooms == map[] && counter == 0
    {
      rooms := map[];
      counter := 0;
    }

    /** `create_room`: refused with `UserBusy`, changing nothing, unless the
        user is idle. Otherwise the room takes the counter's value as its
        id, the counter moves on, the room is added holding just the user,
        not ready, and the user is in that room. No other room changes. */
    method CreateRoom(user: User) returns (r: Result<RoomId>)
      requires Valid()
      modifies this, user
      ensures Valid()
      ensures old(user.status) != Idle ==>
        r == Err(UserBusy) && rooms == old(rooms) && counter == old(counter) && user.status == old(user.status)
      ensures old(user.status) == Idle ==>
        && r == Ok(old(counter))
        && r.value !in old(rooms)
        && counter == old(counter) + 1
        && rooms.Keys == old(rooms.Keys) + {r.value}
        && fresh(rooms[r.value])
        && rooms[r.value].users == [RoomUser(user, false)]
        && user.status == InRoom(r.value)
      ensures forall k :: k in old(rooms) ==> k in rooms && rooms[k] == old(rooms[k])
      ensures forall k :: k in old(rooms) ==> rooms[k].users == old(rooms[k].users)
    {
      if user.status != Idle {
        return Err(UserBusy);
      }
      var roomId := counter;
      counter := counter + 1;
      var room := new Room(roomId);
      var entered := room.UserEnter(user);
      assert entered.Ok?;  // a new room always has space, so the `?` never returns here
      rooms := rooms[roomId := room];
      user.status := InRoom(roomId);
      return Ok(roomId);
    }

    /** `join_room`: refused with `UserBusy` unless the user is idle, then
        with `RoomNotFound` for an unknown id, then with the room's
        `RoomIsFull`; a refusal changes nothing. Otherwise the user joins
        the end of the room, not ready, and is in that room. No other
        room changes. */
    method JoinRoom(user: User, roomId: RoomId) returns (r: Result<()>)
      requires Valid()
      modifies user, rooms.Values
      ensures Valid()
      ensures old(user.status) != Idle ==> r == Err(UserBusy)
      ensures old(user.status) == Idle && roomId !in rooms ==> r == Err(RoomNotFound(roomId))
      ensures old(user.status) == Idle && roomId in rooms && |old(rooms[roomId].users)| >= Capacity ==>
        r == Err(RoomIsFull(roomId))
      ensures r.Err? ==> user.status == old(user.status)
      ensures r.Err? ==> forall k :: k in rooms ==> rooms[k].users == old(rooms[k].users)
      ensures r.Ok? <==> old(user.status) == Idle && roomId in rooms && |old(rooms[roomId].users)| < Capacity
      ensures r.Ok? ==>
        && rooms[roomId].users == old(rooms[roomId].users) + [RoomUser(user, false)]
        && user.status == InRoom(roomId)
        && forall k :: k in rooms && k != roomId ==> rooms[k].users == old(rooms[k].users)
    {
      if user.status != Idle {
        return Err(UserBusy);
      }
      if roomId !in rooms {
        return Err(RoomNotFound(roomId));
      }
      var room := rooms[roomId];
      r := room.UserEnter(user);
      if r.Err? {
        return;
      }
      user.status := InRoom(roomId);
    }
  }

  /** Two idle users creating rooms one after the other get distinct,
      successive ids, starting from zero. */
  method SuccessiveRoomIds() returns (first: Result<RoomId>, second: Result<RoomId>)
    ensures first == Ok(0) && second == Ok(1)
  {
    var manager := new RoomManager();
    var alice := new User(UserId(0), "alice");
    var bob := new User(UserId(1), "bob");
    first := manager.CreateRoom(alice);
    second := manager.CreateRoom(bob);
  }
}
