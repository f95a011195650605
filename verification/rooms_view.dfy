/** The lobby's list of public rooms (`hexomino-web/src/view/rooms.rs`):
    the rooms fetched from the server are filtered by the search text and
    shown by increasing number of users, newest room first among rooms
    with as many users. */
module RoomsView {
  import opened Rooms

  datatype Option<T> = None | Some(value: T)

  /** `api::Room` as the lobby receives it: the id, the match token of a
      match room, and the users. */
  datatype Room = Room(id: RoomId, matchToken: Option<string>, users: seq<ApiUser>)

  // ---- Text -----------------------------------------------------------------

  /** The character of one decimal digit. */
  function DigitChar(d: nat): (c: char)
    requires d < 10
    ensures '0' <= c <= '9'
  {
    (d + '0' as int) as char
  }

  /** The value of a digit character. */
  function DigitValue(c: char): (d: nat)
    requires '0' <= c <= '9'
    ensures d < 10 && DigitChar(d) == c
  {
    (c as int - '0' as int) as nat
  }

  /** The decimal digits of a natural number, without leading zeros. */
  function Digits(n: nat): (s: string)
    ensures 1 <= |s|
    ensures forall i :: 0 <= i < |s| ==> '0' <= s[i] <= '9'
    ensures |s| > 1 ==> s[0] != '0'
    decreases n
  {
    if n < 10 then [DigitChar(n)] else Digits(n / 10) + [DigitChar(n % 10)]
  }

  /** `Display` of an integer: a minus sign before the digits of a
      negative one. */
  function DecimalString(n: int): string {
    if n < 0 then "-" + Digits(-n) else Digits(n)
  }

  /** The number a string of digits stands for. */
  function ParseDigits(s: string): nat
    requires forall i :: 0 <= i < |s| ==> '0' <= s[i] <= '9'
  {
    if |s| == 0 then 0 else ParseDigits(s[..|s| - 1]) * 10 + DigitValue(s[|s| - 1])
  }

  /** The number a decimal string stands for. */
  function ParseDecimal(s: string): int
    requires |s| > 0
    requires forall i :: (if s[0] == '-' then 1 else 0) <= i < |s| ==> '0' <= s[i] <= '9'
  {
    if s[0] == '-' then -(ParseDigits(s[1..]) as int) else ParseDigits(s) as int
  }

  /** Reading the digits back gives the number. */
  lemma {:induction false} DigitsRoundTrip(n: nat)
    ensures ParseDigits(Digits(n)) == n
    decreases n
  {
    var s := Digits(n);
    if n >= 10 {
      DigitsRoundTrip(n / 10);
      assert s[..|s| - 1] == Digits(n / 10);
      assert DigitValue(s[|s| - 1]) == n % 10;
      assert ParseDigits(s) == n / 10 * 10 + n % 10;
    } else {
      assert s[..0] == [];
    }
  }

  /** The decimal form of an id is a faithful rendering: reading it back
      gives the id, so two rooms show the same text only when they have
      the same id. */
  lemma DecimalRoundTrip(n: int)
    ensures |DecimalString(n)| > 0
    ensures ParseDecimal(DecimalString(n)) == n
  {
    if n < 0 {
      DigitsRoundTrip(-n);
      assert DecimalString(n)[1..] == Digits(-n);
    } else {
      DigitsRoundTrip(n);
    }
  }

  /** `str::contains`: `t` occurs in `s` at some position (the empty
      string occurs everywhere). */
  function Contains(s: string, t: string): (b: bool)
    decreases |s|
  {
    (|t| <= |s| && s[..|t|] == t) || (|s| > 0 && Contains(s[1..], t))
  }

  /** `t` occurs in `s` at position `i`. */
  ghost predicate OccursAt(t: string, s: string, i: int) {
    0 <= i <= |s| - |t| && s[i..i + |t|] == t
  }

  /** `t` is a substring of `s`. */
  ghost predicate Substring(t: string, s: string) {
    exists i :: OccursAt(t, s, i)
  }

  /** `Contains` finds exactly the substrings. */
  lemma {:induction false} ContainsSpec(s: string, t: string)
    ensures Contains(s, t) <==> Substring(t, s)
    decreases |s|
  {
    if |s| > 0 {
      ContainsSpec(s[1..], t);
      if Substring(t, s[1..]) {
        var i :| OccursAt(t, s[1..], i);
        SliceOfTail(s, i, |t|);
        assert OccursAt(t, s, i + 1);
      }
      if Substring(t, s) && !(|t| <= |s| && s[..|t|] == t) {
        var i :| OccursAt(t, s, i);
        assert i != 0 by { assert s[0..0 + |t|] == s[..|t|]; }
        SliceOfTail(s, i - 1, |t|);
        assert OccursAt(t, s[1..], i - 1);
      }
    } else if Substring(t, s) {
      var i :| OccursAt(t, s, i);
      assert |t| == 0;
    }
    if |t| <= |s| && s[..|t|] == t {
      assert s[0..0 + |t|] == s[..|t|];
      assert OccursAt(t, s, 0);
    }
  }

  /** A slice of the tail is the slice one further along. */
  lemma SliceOfTail(s: string, i: nat, n: nat)
    requires |s| > 0 && i + n <= |s| - 1
    ensures s[1..][i..i + n] == s[i + 1..i + 1 + n]
  {
    var u, v := s[1..][i..i + n], s[i + 1..i + 1 + n];
    forall k | 0 <= k < n
      ensures u[k] == v[k]
    {
    }
  }

  // ---- Filter -----------------------------------------------------------------

  /** `filter_room`: an empty search keeps every room; otherwise the room
      is kept when the text occurs in its id, in its match token, or in
      one of its users' names, tried in that order. */
  function FilterRoom(filter: string, room: Room): bool {
    if filter == [] then true
    else if Contains(DecimalString(room.id), filter) then true
    else if room.matchToken.Some? && Contains(room.matchToken.value, filter) then true
    else if exists i :: 0 <= i < |room.users| && Contains(room.users[i].name, filter) then true
    else false
  }

  /** A room is kept exactly when the search text is a substring of its
      id, of its match token or of a user's name; the empty text is a
      substring of any id, so it keeps every room. */
  lemma FilterRoomSpec(filter: string, room: Room)
    ensures FilterRoom(filter, room) <==>
      || Substring(filter, DecimalString(room.id))
      || (room.matchToken.Some? && Substring(filter, room.matchToken.value))
      || (exists u :: u in room.users && Substring(filter, u.name))
    ensures filter == [] ==> FilterRoom(filter, room)
  {
    ContainsSpec(DecimalString(room.id), filter);
    if room.matchToken.Some? {
      ContainsSpec(room.matchToken.value, filter);
    }
    forall i | 0 <= i < |room.users|
      ensures Contains(room.users[i].name, filter) <==> Substring(filter, room.users[i].name)
    {
      ContainsSpec(room.users[i].name, filter);
    }
    if exists u :: u in room.users && Substring(filter, u.name) {
      var u :| u in room.users && Substring(filter, u.name);
      var i :| 0 <= i < |room.users| && room.users[i] == u;
    }
    if filter == [] {
      assert OccursAt(filter, DecimalString(room.id), 0);
    }
  }

  /** The fetched rooms the filter keeps, in their order. */
  function FilterRooms(filter: string, rooms: seq<Room>): (kept: seq<Room>)
    ensures |kept| <= |rooms|
    ensures forall r :: r in kept <==> r in rooms && FilterRoom(filter, r)
    ensures multiset(kept) <= multiset(rooms)
    ensures forall r :: multiset(kept)[r] == if FilterRoom(filter, r) then multiset(rooms)[r] else 0
  {
    if |rooms| == 0 then []
    else
      var rest := FilterRooms(filter, rooms[1..]);
      assert rooms == [rooms[0]] + rooms[1..];
      if FilterRoom(filter, rooms[0]) then [rooms[0]] + rest else rest
  }

  // ---- Order ------------------------------------------------------------------

  /** The comparator of `sort_by`: `a` comes strictly before `b` when it
      has fewer users, or as many and a larger id. */
  predicate Precedes(a: Room, b: Room) {
    |a.users| < |b.users| || (|a.users| == |b.users| && a.id > b.id)
  }

  /** `a` may come before `b`: the comparator does not put `b` first. */
  predicate InOrder(a: Room, b: Room) {
    !Precedes(b, a)
  }

  ghost predicate Sorted(s: seq<Room>) {
    forall i, j :: 0 <= i < j < |s| ==> InOrder(s[i], s[j])
  }

  /** The comparator is a strict weak order, and rooms it cannot tell
      apart have as many users and the same id. */
  lemma PrecedesOrder(a: Room, b: Room, c: Room)
    ensures !Precedes(a, a)
    ensures Precedes(a, b) ==> !Precedes(b, a)
    ensures Precedes(a, b) && Precedes(b, c) ==> Precedes(a, c)
    ensures InOrder(a, b) && InOrder(b, c) ==> InOrder(a, c)
    ensures InOrder(a, b) || InOrder(b, a)
    ensures InOrder(a, b) && InOrder(b, a) <==> |a.users| == |b.users| && a.id == b.id
  {
  }

  /** Inserts `r` in front of the first room it may precede. */
  function Insert(r: Room, s: seq<Room>): (t: seq<Room>)
    ensures |t| == |s| + 1
  {
    if |s| == 0 then [r]
    else if InOrder(r, s[0]) then [r] + s
    else [s[0]] + Insert(r, s[1..])
  }

  lemma {:induction false} InsertMultiset(r: Room, s: seq<Room>)
    ensures multiset(Insert(r, s)) == multiset(s) + multiset{r}
  {
    if |s| > 0 && !InOrder(r, s[0]) {
      InsertMultiset(r, s[1..]);
      assert s == [s[0]] + s[1..];
    }
  }

  lemma {:induction false} InsertSorted(r: Room, s: seq<Room>)
    requires Sorted(s)
    ensures Sorted(Insert(r, s))
  {
    if |s| > 0 && !InOrder(r, s[0]) {
      var rest := Insert(r, s[1..]);
      InsertSorted(r, s[1..]);
      InsertMultiset(r, s[1..]);
      forall j | 0 <= j < |rest| ensures InOrder(s[0], rest[j]) {
        assert rest[j] in multiset(rest);
        if rest[j] != r {
          assert rest[j] in multiset(s[1..]);
          var k :| 0 <= k < |s[1..]| && s[1..][k] == rest[j];
          assert s[k + 1] == rest[j];
        }
      }
      assert Sorted([s[0]] + rest);
    }
  }

  /** `rooms.sort_by(...)`: the standard library's sort, given here by
      the result it produces, as an insertion sort. */
  function SortRooms(s: seq<Room>): (t: seq<Room>)
    ensures |t| == |s|
  {
    if |s| == 0 then [] else Insert(s[0], SortRooms(s[1..]))
  }

  /** The sorted rooms are the same rooms, in comparator order: by
      increasing number of users, and by decreasing id among rooms with as
      many users. */
  lemma {:induction false} SortRoomsSpec(s: seq<Room>)
    ensures multiset(SortRooms(s)) == multiset(s)
    ensures Sorted(SortRooms(s))
    ensures forall i, j :: 0 <= i < j < |s| ==>
      |SortRooms(s)[i].users| <= |SortRooms(s)[j].users|
    ensures forall i, j :: 0 <= i < j < |s| && |SortRooms(s)[i].users| == |SortRooms(s)[j].users| ==>
      SortRooms(s)[i].id >= SortRooms(s)[j].id
  {
    if |s| > 0 {
      SortRoomsSpec(s[1..]);
      InsertMultiset(s[0], SortRooms(s[1..]));
      InsertSorted(s[0], SortRooms(s[1..]));
      assert s == [s[0]] + s[1..];
    }
  }

  /** Rooms with distinct ids have one sorted order only: any two sorted
      arrangements of them are equal, so the list shown does not depend on
      how the sort proceeds. */
  lemma {:induction false} SortedUnique(a: seq<Room>, b: seq<Room>)
    requires Sorted(a) && Sorted(b) && multiset(a) == multiset(b)
    requires forall i, j :: 0 <= i < j < |a| ==> a[i].id != a[j].id
    ensures a == b
  {
    if |a| == 0 {
      assert |multiset(b)| == 0;
    } else {
      SortedHeads(a, b);
      assert a == [a[0]] + a[1..];
      assert b == [b[0]] + b[1..];
      assert multiset(a[1..]) == multiset(a) - multiset{a[0]};
      assert multiset(b[1..]) == multiset(b) - multiset{b[0]};
      SortedUnique(a[1..], b[1..]);
    }
  }

  /** Two sorted arrangements of rooms with distinct ids start with the
      same room. */
  lemma SortedHeads(a: seq<Room>, b: seq<Room>)
    requires Sorted(a) && Sorted(b) && multiset(a) == multiset(b) && |a| > 0
    requires forall i, j :: 0 <= i < j < |a| ==> a[i].id != a[j].id
    ensures |b| > 0 && a[0] == b[0]
  {
    assert a[0] in multiset(b) && b[0] in multiset(a);
    var i :| 0 <= i < |b| && b[i] == a[0];
    var j :| 0 <= j < |a| && a[j] == b[0];
    assert InOrder(b[0], b[i]);
    assert InOrder(a[0], a[j]);
    PrecedesOrder(a[0], b[0], a[0]);
    assert j == 0;
  }

  /** The rooms the lobby lists: those the search keeps, sorted. */
  function ShownRooms(filter: string, fetched: seq<Room>): seq<Room> {
    SortRooms(FilterRooms(filter, fetched))
  }

  /** The list shown is a permutation of the kept rooms, in comparator
      order, and a room appears in it exactly when it was fetched and the
      search keeps it. */
  lemma ShownRoomsSpec(filter: string, fetched: seq<Room>)
    ensures multiset(ShownRooms(filter, fetched)) == multiset(FilterRooms(filter, fetched))
    ensures Sorted(ShownRooms(filter, fetched))
    ensures forall r :: r in ShownRooms(filter, fetched) <==> r in fetched && FilterRoom(filter, r)
  {
    var kept := FilterRooms(filter, fetched);
    SortRoomsSpec(kept);
    forall r ensures r in ShownRooms(filter, fetched) <==> r in kept {
      assert r in ShownRooms(filter, fetched) <==> r in multiset(ShownRooms(filter, fetched));
      assert r in kept <==> r in multiset(kept);
    }
  }
}
