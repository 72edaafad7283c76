/**
 * The progress rooms behind the `/ws/{room_name}` endpoint: a map from room
 * name to the connections currently in it, in the order they joined. A text
 * received from one connection is sent to every other connection of its
 * room; a room disappears with its last connection.
 */
module Rooms {
  import opened Common

  /** A connection, by identity. */
  type ConnId = nat

  /** One `send_text` to one connection. */
  datatype Delivery = Delivery(recipient: ConnId, text: string)

  type RoomMap = map<string, seq<ConnId>>

  /**
   * No room is empty, no connection is listed twice in a room, and no
   * connection is in two rooms: each accepted websocket joins exactly one room.
   */
  ghost predicate WellFormed(rooms: RoomMap) {
    && (forall r :: r in rooms ==> rooms[r] != [] && Distinct(rooms[r]))
    && (forall r1, r2, c :: r1 in rooms && r2 in rooms && r1 != r2 && c in rooms[r1] ==> c !in rooms[r2])
  }

  ghost predicate Joined(rooms: RoomMap, c: ConnId) {
    exists r :: r in rooms && c in rooms[r]
  }

  /** Lines 25-27: create the room if needed, then append the connection. */
  function Enter(rooms: RoomMap, room: string, c: ConnId): (after: RoomMap)
    ensures room in after && |after[room]| > 0 && after[room][|after[room]| - 1] == c
    ensures room in rooms ==> after[room][..|after[room]| - 1] == rooms[room]
    ensures room !in rooms ==> after[room] == [c]
    ensures forall r :: r != room ==> (r in after <==> r in rooms) && (r in rooms ==> after[r] == rooms[r])
  {
    var members := if room in rooms then rooms[room] else [];
    assert (members + [c])[..|members|] == members;
    rooms[room := members + [c]]
  }

  /** Joining with a connection that is in no room keeps the registry well formed. */
  lemma EnterWellFormed(rooms: RoomMap, room: string, c: ConnId)
    requires WellFormed(rooms) && !Joined(rooms, c)
    ensures WellFormed(Enter(rooms, room, c)) && Joined(Enter(rooms, room, c), c)
  {
    var after := Enter(rooms, room, c);
    var members := if room in rooms then rooms[room] else [];
    assert after[room] == members + [c];
    assert c !in members;
    forall r1, r2, x | r1 in after && r2 in after && r1 != r2 && x in after[r1]
      ensures x !in after[r2]
    {
      if x == c {
        assert r1 == room;
      } else if r1 == room {
        assert x in members;
      } else if r2 == room {
        assert x in rooms[r1];
      }
    }
  }

  /** Where `c` first occurs in `s`. */
  function FirstIndex(s: seq<ConnId>, c: ConnId): (k: nat)
    requires c in s
    ensures k < |s| && s[k] == c && c !in s[..k]
  {
    if s[0] == c then 0
    else
      assert c in s[1..] by {
        var i :| 0 <= i < |s| && s[i] == c;
        assert s[1..][i - 1] == c;
      }
      var k := 1 + FirstIndex(s[1..], c);
      assert s[..k] == [s[0]] + s[1..][..k - 1];
      k
  }

  /**
   * `list.remove`: drops the first occurrence and keeps the rest in order;
   * a list without the element is returned as it is.
   */
  function RemoveFirst(s: seq<ConnId>, c: ConnId): (r: seq<ConnId>)
    ensures c in s ==> r == s[..FirstIndex(s, c)] + s[FirstIndex(s, c) + 1..]
    ensures c !in s ==> r == s
  {
    if s == [] then []
    else if s[0] == c then s[1..]
    else
      var rest := RemoveFirst(s[1..], c);
      RemoveFirstCons(s, c, rest);
      [s[0]] + rest
  }

  /**
   * One element fewer when `c` was present; nothing but `c` is lost and
   * nothing is added; a list without duplicates keeps none and loses `c`.
   */
  lemma RemoveFirstKeeps(s: seq<ConnId>, c: ConnId)
    ensures c in s ==> |RemoveFirst(s, c)| == |s| - 1
    ensures forall x :: x in RemoveFirst(s, c) ==> x in s
    ensures forall x :: x in s && x != c ==> x in RemoveFirst(s, c)
    ensures Distinct(s) ==> Distinct(RemoveFirst(s, c)) && c !in RemoveFirst(s, c)
  {
    if c in s {
      var k := FirstIndex(s, c);
      DropAtMembers(s, k);
      if Distinct(s) {
        DropAtDistinct(s, k);
      }
    }
  }

  /** Dropping the element at `k` loses that element and nothing else. */
  lemma DropAtMembers(s: seq<ConnId>, k: nat)
    requires k < |s|
    ensures forall x :: x in s[..k] + s[k + 1..] ==> x in s
    ensures forall x :: x in s && x != s[k] ==> x in s[..k] + s[k + 1..]
  {
    var r := s[..k] + s[k + 1..];
    forall x | x in s && x != s[k]
      ensures x in r
    {
      var i :| 0 <= i < |s| && s[i] == x;
      if i < k { assert r[i] == x; } else { assert r[i - 1] == x; }
    }
    forall x | x in r
      ensures x in s
    {
      var i :| 0 <= i < |r| && r[i] == x;
      if i < k { assert s[i] == x; } else { assert s[i + 1] == x; }
    }
  }

  /** Dropping the element at `k` from a list without duplicates leaves one without it. */
  lemma DropAtDistinct(s: seq<ConnId>, k: nat)
    requires k < |s| && Distinct(s)
    ensures Distinct(s[..k] + s[k + 1..]) && s[k] !in s[..k] + s[k + 1..]
  {
    var r := s[..k] + s[k + 1..];
    forall i, j | 0 <= i < j < |r|
      ensures r[i] != r[j]
    {
      var i', j' := if i < k then i else i + 1, if j < k then j else j + 1;
      assert r[i] == s[i'] && r[j] == s[j'];
    }
    forall i | 0 <= i < |r|
      ensures r[i] != s[k]
    {
      var i' := if i < k then i else i + 1;
      assert r[i] == s[i'] && i' != k;
    }
  }

  /** The step of `RemoveFirst` past an element other than `c`. */
  lemma RemoveFirstCons(s: seq<ConnId>, c: ConnId, rest: seq<ConnId>)
    requires s != [] && s[0] != c
    requires c in s[1..] ==> rest == s[1..][..FirstIndex(s[1..], c)] + s[1..][FirstIndex(s[1..], c) + 1..]
    requires c !in s[1..] ==> rest == s[1..]
    ensures c in s ==> [s[0]] + rest == s[..FirstIndex(s, c)] + s[FirstIndex(s, c) + 1..]
  {
    if c in s {
      assert c in s[1..] by {
        var i :| 0 <= i < |s| && s[i] == c;
        assert s[1..][i - 1] == c;
      }
      var j := FirstIndex(s[1..], c);
      assert FirstIndex(s, c) == j + 1;
      assert s[..j + 1] == [s[0]] + s[1..][..j];
      assert s[j + 2..] == s[1..][j + 1..];
    }
  }

  /** Lines 35-37: remove the connection; delete the room once its list is empty. */
  function Leave(rooms: RoomMap, room: string, c: ConnId): (after: RoomMap)
    requires room in rooms
    ensures room in after ==> after[room] != []
    ensures c in rooms[room] ==> (room in after <==> |rooms[room]| > 1)
    ensures forall r :: r != room ==> (r in after <==> r in rooms) && (r in rooms ==> after[r] == rooms[r])
  {
    var rest := RemoveFirst(rooms[room], c);
    RemoveFirstKeeps(rooms[room], c);
    if rest == [] then rooms - {room} else rooms[room := rest]
  }

  /**
   * Leaving keeps the registry well formed, the connection is then in no
   * room, the room survives exactly when someone else is still in it, and
   * every other room is untouched.
   */
  lemma LeaveWellFormed(rooms: RoomMap, room: string, c: ConnId)
    requires WellFormed(rooms) && room in rooms && c in rooms[room]
    ensures WellFormed(Leave(rooms, room, c))
    ensures !Joined(Leave(rooms, room, c), c)
    ensures room in Leave(rooms, room, c) <==> |rooms[room]| > 1
    ensures forall r :: r != room ==>
              (r in Leave(rooms, room, c) <==> r in rooms) && (r in rooms ==> Leave(rooms, room, c)[r] == rooms[r])
    ensures forall k :: 0 <= k < |rooms[room]| && rooms[room][k] == c && room in Leave(rooms, room, c) ==>
              Leave(rooms, room, c)[room] == rooms[room][..k] + rooms[room][k + 1..]
  {
    var after := Leave(rooms, room, c);
    RemoveFirstKeeps(rooms[room], c);
    forall r1, r2, x | r1 in after && r2 in after && r1 != r2 && x in after[r1]
      ensures x !in after[r2]
    {
      assert x in rooms[r1];
    }
  }

  /** Leaving right after joining restores the registry (the room too, if it was new). */
  lemma LeaveUndoesEnter(rooms: RoomMap, room: string, c: ConnId)
    requires WellFormed(rooms) && !Joined(rooms, c)
    ensures Leave(Enter(rooms, room, c), room, c) == rooms
  {
    var members := if room in rooms then rooms[room] else [];
    assert c !in members;
    LeaveAfterAppend(rooms, room, c, members);
  }

  lemma LeaveAfterAppend(rooms: RoomMap, room: string, c: ConnId, members: seq<ConnId>)
    requires members == (if room in rooms then rooms[room] else [])
    requires c !in members && (room in rooms ==> members != [])
    ensures Leave(Enter(rooms, room, c), room, c) == rooms
  {
    RemoveFirstLast(members, c);
    if room !in rooms {
      LeaveNewRoom(rooms, room, c);
    } else {
      LeaveOldRoom(rooms, room, c, members);
    }
  }

  lemma LeaveNewRoom(rooms: RoomMap, room: string, c: ConnId)
    requires room !in rooms && RemoveFirst([c], c) == []
    ensures Leave(Enter(rooms, room, c), room, c) == rooms
  {
    var after := rooms[room := [c]];
    assert Enter(rooms, room, c) == after;
    assert after - {room} == rooms;
  }

  lemma LeaveOldRoom(rooms: RoomMap, room: string, c: ConnId, members: seq<ConnId>)
    requires room in rooms && members == rooms[room] && members != []
    requires RemoveFirst(members + [c], c) == members
    ensures Leave(Enter(rooms, room, c), room, c) == rooms
  {
    var after := rooms[room := members + [c]];
    assert Enter(rooms, room, c) == after;
    assert after[room := members] == rooms;
  }

  /** Removing an element appended to a list that lacked it gives back the list. */
  lemma RemoveFirstLast(s: seq<ConnId>, c: ConnId)
    requires c !in s
    ensures RemoveFirst(s + [c], c) == s
  {
    var t := s + [c];
    assert t[|s|] == c;
    var k := FirstIndex(t, c);
    assert t[..k] == s;
  }

  function DeliveryFor(sender: ConnId, text: string): ConnId -> Option<Delivery> {
    (c: ConnId) => if c != sender then Some(Delivery(c, text)) else None
  }

  /** Lines 31-33: one send of `text` to each listed connection other than the sender, in list order. */
  function Relay(members: seq<ConnId>, sender: ConnId, text: string): (sent: seq<Delivery>)
    ensures |sent| <= |members|
    ensures forall d :: d in sent ==> d.text == text && d.recipient != sender && d.recipient in members
    ensures Distinct(members) ==> Distinct(sent)
  {
    DeliveriesFromMembers(members, sender, text);
    DeliveriesDistinct(members, sender, text);
    FilterMap(members, DeliveryFor(sender, text))
  }

  lemma DeliveriesDistinct(members: seq<ConnId>, sender: ConnId, text: string)
    ensures Distinct(members) ==> Distinct(FilterMap(members, DeliveryFor(sender, text)))
  {
    if Distinct(members) {
      FilterMapDistinct(members, DeliveryFor(sender, text));
    }
  }

  lemma DeliveriesFromMembers(members: seq<ConnId>, sender: ConnId, text: string)
    ensures forall d :: d in FilterMap(members, DeliveryFor(sender, text)) ==>
              d.text == text && d.recipient != sender && d.recipient in members
  {
    var f := DeliveryFor(sender, text);
    var out := FilterMap(members, f);
    forall d | d in out
      ensures d.text == text && d.recipient != sender && d.recipient in members
    {
      var k :| 0 <= k < |out| && out[k] == d;
      var i := FilterMapOrigin(members, f, k);
    }
  }

  /**
   * A received text reaches every other member of the room exactly once,
   * and no one else: never the sender, never a connection outside the list.
   */
  lemma RelayToOthersOnce(members: seq<ConnId>, sender: ConnId, text: string)
    requires Distinct(members)
    ensures Distinct(Relay(members, sender, text))
    ensures forall d :: d in Relay(members, sender, text) ==> d.text == text && d.recipient != sender && d.recipient in members
    ensures forall c :: c in members && c != sender ==> Delivery(c, text) in Relay(members, sender, text)
  {
    var f := DeliveryFor(sender, text);
    var out := Relay(members, sender, text);
    FilterMapDistinct(members, f);
    forall c | c in members && c != sender
      ensures Delivery(c, text) in out
    {
      var i :| 0 <= i < |members| && members[i] == c;
      FilterMapPosition(members, f, i);
    }
  }

  /**
   * List order is kept: the member at index `i` is sent to after every
   * earlier member other than the sender, i.e. at position `i` minus the
   * times the sender appears before it.
   */
  lemma RelayInOrder(members: seq<ConnId>, sender: ConnId, text: string, i: nat)
    requires i < |members| && members[i] != sender
    ensures multiset(members[..i])[sender] <= i
    ensures i - multiset(members[..i])[sender] < |Relay(members, sender, text)|
    ensures Relay(members, sender, text)[i - multiset(members[..i])[sender]] == Delivery(members[i], text)
  {
    FilterMapPosition(members, DeliveryFor(sender, text), i);
    SentCount(members[..i], sender, text);
  }

  lemma {:induction false} SentCount(s: seq<ConnId>, sender: ConnId, text: string)
    ensures multiset(s)[sender] <= |s|
    ensures CountSome(s, DeliveryFor(sender, text)) == |s| - multiset(s)[sender]
  {
    if s != [] {
      var n := |s| - 1;
      SentCount(s[..n], sender, text);
      assert s == s[..n] + [s[n]];
    }
  }

  /** Connections of other rooms receive nothing from a text relayed in `room`. */
  lemma RelayStaysInRoom(rooms: RoomMap, room: string, sender: ConnId, text: string, other: string)
    requires WellFormed(rooms) && room in rooms && other in rooms && other != room
    ensures forall d :: d in Relay(rooms[room], sender, text) ==> d.recipient !in rooms[other]
  {
    RelayToOthersOnce(rooms[room], sender, text);
  }

  /** The module-level `rooms` dict together with the log of every send made. */
  class Registry {
    var rooms: RoomMap
    var sent: seq<Delivery>

    ghost predicate Valid()
      reads this
    {
      WellFormed(rooms)
    }

    constructor ()
      ensures Valid() && rooms == map[] && sent == []
    {
      rooms := map[];
      sent := [];
    }

    /** A newly accepted connection joins `room`. */
    method Join(room: string, c: ConnId)
      requires Valid() && !Joined(rooms, c)
      modifies this
      ensures Valid() && Joined(rooms, c)
      ensures rooms == Enter(old(rooms), room, c)
      ensures sent == old(sent)
    {
      EnterWellFormed(rooms, room, c);
      if room !in rooms {
        rooms := rooms[room := []];
      }
      rooms := rooms[room := rooms[room] + [c]];
      assert c in rooms[room];
    }

    /** `sender`, a member of `room`, received `text`: the loop that forwards it. */
    method Receive(room: string, sender: ConnId, text: string)
      requires Valid() && room in rooms
      modifies this
      ensures Valid() && rooms == old(rooms)
      ensures sent == old(sent) + Relay(rooms[room], sender, text)
    {
      var members := rooms[room];
      for i := 0 to |members|
        invariant rooms == old(rooms)
        invariant sent == old(sent) + Relay(members[..i], sender, text)
      {
        FilterMapPrefix(members, DeliveryFor(sender, text), i);
        if members[i] != sender {
          sent := sent + [Delivery(members[i], text)];
        }
      }
      assert members[..|members|] == members;
    }

    /** The connection of `room` closed. */
    method Disconnect(room: string, c: ConnId)
      requires Valid() && room in rooms && c in rooms[room]
      modifies this
      ensures Valid() && !Joined(rooms, c)
      ensures rooms == Leave(old(rooms), room, c)
      ensures sent == old(sent)
    {
      LeaveWellFormed(rooms, room, c);
      rooms := rooms[room := RemoveFirst(rooms[room], c)];
      if rooms[room] == [] {
        rooms := rooms - {room};
      }
    }
  }
}
