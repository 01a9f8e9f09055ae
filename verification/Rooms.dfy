/** The relay's room manager. Every public method runs under one lock and is one
    atomic step here; Valid() is what holds between any two steps of any run. */
module Rooms {
  import opened Options
  import opened Words

  datatype RoomState = RoomWaiting | RoomMatched | RoomDone

  datatype Status = Ok | ErrRoomNotFound | ErrRoomExpired | ErrProtocolError | ErrRoomTaken | ErrWrite

  /** The two messages the room manager writes to a peer's TCP connection. */
  datatype Message = MatchInfo(matchId: u32) | TunInfo(matchId: u32, addr: string)

  // ----- match ids -----

  /** The number of non-zero 32-bit ids. */
  const ID_CYCLE: int := 0xFFFF_FFFF

  /** The id of the n-th allocation; 0 before the first. */
  function IdOf(n: nat): (id: u32)
    ensures id == 0 <==> n == 0
  {
    if n == 0 then 0 else 1 + (n - 1) % ID_CYCLE
  }

  function NextIndex(index: u32): u32 {
    var next := (index + 1) % TWO32;
    if next == 0 then 1 else next
  }

  /** Incrementing and skipping zero walks the cycle of ids. */
  lemma NextIndexIsNextId(n: nat)
    ensures NextIndex(IdOf(n)) == IdOf(n + 1)
  {
    if n > 0 {
      var r := (n - 1) % ID_CYCLE;
      assert n % ID_CYCLE == if r + 1 == ID_CYCLE then 0 else r + 1;
    }
  }

  /** Two allocations share an id exactly when a whole number of cycles separates them. */
  lemma SameId(a: nat, b: nat)
    requires a > 0 && b > 0
    ensures IdOf(a) == IdOf(b) <==> (a - b) % ID_CYCLE == 0
  {
    var qa, qb := (a - 1) / ID_CYCLE, (b - 1) / ID_CYCLE;
    assert a - b == ID_CYCLE * (qa - qb) + (IdOf(a) - IdOf(b));
  }

  // ----- entities -----

  class PeerConn {
    ghost var sent: seq<Message>  // successfully written by the room manager

    /** A bounded write that succeeds or fails as a whole. */
    method Write(m: Message, ok: bool)
      modifies this
      ensures sent == if ok then old(sent) + [m] else old(sent)
    {
      if ok {
        sent := sent + [m];
      }
    }
  }

  class Room {
    const Code: string
    var MatchId: u32
    var State: RoomState
    const HostConn: PeerConn?
    var ClientConn: PeerConn?
    var HostUdpAddr: string
    var ClientUdpAddr: string
    var HostTunSent: bool    // the host's address went to the client
    var ClientTunSent: bool  // the client's address went to the host
    var Expires: int
    ghost var serial: nat    // number of the id allocation, 0 until matched
    ghost var joined: bool   // both peers were sent MatchInfo

    constructor (code: string, hostConn: PeerConn?, expires: int)
      requires hostConn != null ==> hostConn.sent == []
      ensures Traces() && forall n :: Fields(n)
      ensures Code == code && HostConn == hostConn && Expires == expires
      ensures State == RoomWaiting && MatchId == 0 && ClientConn == null && serial == 0 && !joined
      ensures !HostTunSent && !ClientTunSent && HostUdpAddr == ClientUdpAddr == ""
    {
      Code, HostConn, Expires := code, hostConn, expires;
      State, MatchId, ClientConn := RoomWaiting, 0, null;
      HostTunSent, ClientTunSent, HostUdpAddr, ClientUdpAddr := false, false, "", "";
      serial, joined := 0, false;
    }

    /** What both peers of this room have been sent, at any time. */
    ghost predicate Traces()
      reads this, HostConn, ClientConn
    {
      && (HostConn != null ==>
            if joined then
              HostConn.sent == [MatchInfo(MatchId)] + (if ClientTunSent then [TunInfo(MatchId, ClientUdpAddr)] else [])
            else HostConn.sent == [] || (State != RoomWaiting && HostConn.sent == [MatchInfo(MatchId)]))
      && (ClientConn != null ==>
            if joined then
              ClientConn.sent == [MatchInfo(MatchId)] + (if HostTunSent then [TunInfo(MatchId, HostUdpAddr)] else [])
            else ClientConn.sent == [])
      && (State == RoomWaiting && HostConn != null ==> HostConn.sent == [])
    }

    ghost predicate Fields(allocations: nat)
      reads this
    {
      && MatchId == IdOf(serial) && serial <= allocations
      && (State == RoomWaiting <==> serial == 0)
      && (State == RoomWaiting <==> ClientConn == null)
      && (joined ==> State != RoomWaiting)
      && (!joined ==> !HostTunSent && !ClientTunSent && State != RoomDone)
      && (State == RoomDone <==> HostTunSent && ClientTunSent)
      && (HostConn == null || HostConn != ClientConn)
    }

    /** Records the address of one side and writes it to the other one. */
    method Record(isClient: bool, udpAddr: string, opposite: PeerConn, writeOk: bool, ghost allocations: nat)
      requires joined && HostConn != null && Traces() && Fields(allocations)
      requires opposite == if isClient then HostConn else ClientConn
      requires if isClient then !ClientTunSent else !HostTunSent
      modifies `State, `ClientUdpAddr, `HostUdpAddr, `ClientTunSent, `HostTunSent, opposite
      ensures Traces() && Fields(allocations) && old(State) != RoomDone
      ensures opposite.sent == old(opposite.sent) + if writeOk then [TunInfo(MatchId, udpAddr)] else []
      ensures if isClient then ClientTunSent == writeOk && ClientUdpAddr == udpAddr
                               && HostTunSent == old(HostTunSent) && HostUdpAddr == old(HostUdpAddr)
              else HostTunSent == writeOk && HostUdpAddr == udpAddr
                   && ClientTunSent == old(ClientTunSent) && ClientUdpAddr == old(ClientUdpAddr)
    {
      if isClient {
        ClientUdpAddr := udpAddr;
      } else {
        HostUdpAddr := udpAddr;
      }
      opposite.Write(TunInfo(MatchId, udpAddr), writeOk);
      if writeOk {
        if isClient {
          ClientTunSent := true;
        } else {
          HostTunSent := true;
        }
        if HostTunSent && ClientTunSent {
          State := RoomDone;
        }
      }
    }
  }

  /** A scheduled grace-period deletion, with the room it was issued for. */
  datatype Deferred = Deferred(code: string, matchId: u32, room: Room)

  /** MatchInfo first, at most one of each, and the same id in both. */
  ghost predicate Grammar(sent: seq<Message>) {
    || sent == []
    || (|sent| == 1 && sent[0].MatchInfo?)
    || (|sent| == 2 && sent[0].MatchInfo? && sent[1].TunInfo? && sent[0].matchId == sent[1].matchId)
  }

  /** The first of the candidates that is not taken. */
  ghost predicate FirstFree(candidates: seq<string>, i: int, rooms: map<string, Room>) {
    0 <= i < |candidates| && candidates[i] !in rooms && forall j :: 0 <= j < i ==> candidates[j] in rooms
  }

  class RoomManager {
    var rooms: map<string, Room>
    var matchIndex: u32

    ghost var allocations: nat
    ghost var everRooms: set<Room>      // every room ever registered
    ghost var everConns: set<PeerConn>  // every connection ever given to a room
    ghost var pending: set<Deferred>    // grace-period deletions not yet run

    ghost predicate Owns(r: Room)
      reads this, r
    {
      && (r.HostConn != null ==> r.HostConn in everConns)
      && (r.ClientConn != null ==> r.ClientConn in everConns)
    }

    ghost predicate Apart(r1: Room, r2: Room)
      reads r1, r2
    {
      && (r1.HostConn != null ==> r1.HostConn != r2.HostConn && r1.HostConn != r2.ClientConn)
      && (r1.ClientConn != null ==> r1.ClientConn != r2.HostConn && r1.ClientConn != r2.ClientConn)
      && (r1.serial != 0 ==> r1.serial != r2.serial)
    }

    ghost predicate HasRoom(c: PeerConn)
      reads this, everRooms
    {
      exists r :: r in everRooms && (c == r.HostConn || c == r.ClientConn)
    }

    /** Every room ever registered, live or not, has consistent fields and traces. */
    ghost predicate History()
      reads this, everRooms, everConns
    {
      && (forall r <- everRooms :: Owns(r) && r.Fields(allocations) && r.Traces())
      && (forall r1 <- everRooms, r2 <- everRooms :: r1 != r2 ==> Apart(r1, r2))
      && (forall c <- everConns :: HasRoom(c))
    }

    ghost predicate Keyed()
      reads this, everRooms
    {
      && matchIndex == IdOf(allocations)
      && (forall code <- rooms :: rooms[code] in everRooms && rooms[code].Code == code)
      && (forall d <- pending :: d.room in everRooms && d.room.State == RoomDone
            && d.matchId == d.room.MatchId && d.code == d.room.Code)
    }

    /** In a live matched room both peers have MatchInfo. */
    ghost predicate LiveJoined(except: Room?)
      reads this, everRooms
      requires Keyed()
    {
      forall code <- rooms :: rooms[code] != except && rooms[code].State != RoomWaiting ==> rooms[code].joined
    }

    ghost predicate Valid()
      reads this, everRooms, everConns
    {
      Keyed() && History() && LiveJoined(null)
    }

    constructor ()
      ensures Valid() && rooms == map[] && everRooms == {} && everConns == {} && pending == {}
    {
      rooms, matchIndex := map[], 0;
      allocations, everRooms, everConns, pending := 0, {}, {}, {};
    }

    method NextMatchId() returns (id: u32)
      requires matchIndex == IdOf(allocations)
      modifies `matchIndex, `allocations
      ensures allocations == old(allocations) + 1 && id == matchIndex == IdOf(allocations)
    {
      NextIndexIsNextId(allocations);
      matchIndex := (matchIndex + 1) % TWO32;
      if matchIndex == 0 {
        matchIndex := 1;
      }
      allocations := allocations + 1;
      id := matchIndex;
    }

    /** The code the host gets: its own, or the first free one of ten random
        `candidates` when it asks for one; "" if there is none. */
    method ChooseCode(code: string, candidates: seq<string>) returns (chosen: string)
      requires |candidates| == 10 && "" !in candidates
      ensures code != "" ==> chosen == if code in rooms then "" else code
      ensures code == "" && chosen != "" ==> exists i :: FirstFree(candidates, i, rooms) && chosen == candidates[i]
      ensures code == "" && chosen == "" ==> forall c <- candidates :: c in rooms
    {
      if code != "" {
        return if code in rooms then "" else code;
      }
      chosen := "";
      for i := 0 to 10
        invariant chosen == "" && forall j :: 0 <= j < i ==> candidates[j] in rooms
      {
        if candidates[i] !in rooms {
          assert FirstFree(candidates, i, rooms);
          return candidates[i];
        }
      }
    }

    method RegisterHost(code: string, hostConn: PeerConn?, now: int, ttl: int, candidates: seq<string>)
      returns (assignedCode: string, room: Room?, err: Status)
      requires Valid() && |candidates| == 10 && "" !in candidates
      requires hostConn != null ==> hostConn !in everConns && hostConn.sent == []
      modifies `rooms, `everRooms, `everConns
      ensures Valid()
      ensures err == Ok <==> if code == "" then exists c :: c in candidates && c !in old(rooms) else code !in old(rooms)
      ensures err == Ok ==>
        && room != null && fresh(room) && assignedCode !in old(rooms) && assignedCode != ""
        && (code != "" ==> assignedCode == code)
        && (code == "" ==> exists i :: FirstFree(candidates, i, old(rooms)) && assignedCode == candidates[i])
        && rooms == old(rooms)[assignedCode := room]
        && room.State == RoomWaiting && room.HostConn == hostConn && room.Expires == now + ttl
        && room.Code == assignedCode && room.MatchId == 0 && room.ClientConn == null
      ensures err != Ok ==> err == ErrRoomTaken && room == null && rooms == old(rooms)
    {
      assignedCode := ChooseCode(code, candidates);
      assert code == "" && assignedCode != "" ==> assignedCode in candidates;
      if assignedCode == "" {
        return "", null, ErrRoomTaken;
      }
      room := new Room(assignedCode, hostConn, now + ttl);
      AddRoom(assignedCode, room);
      err := Ok;
    }

    method AddRoom(code: string, room: Room)
      requires Valid() && code !in rooms && room.Code == code && room !in everRooms
      requires room.State == RoomWaiting && room.ClientConn == null && room.serial == 0
      requires room.HostConn != null ==> room.HostConn !in everConns
      requires room.Traces() && room.Fields(allocations)
      modifies `rooms, `everRooms, `everConns
      ensures Valid() && rooms == old(rooms)[code := room]
      ensures everRooms == old(everRooms) + {room}
    {
      hide Room.Traces, Room.Fields;
      rooms := rooms[code := room];
      everRooms := everRooms + {room};
      if room.HostConn != null {
        everConns := everConns + {room.HostConn};
      }
      forall x <- everRooms
        ensures Owns(x) && x.Fields(allocations) && x.Traces()
      {
        assert x == room || old(Owns(x) && x.Fields(allocations) && x.Traces());
      }
      forall x <- everRooms, y <- everRooms | x != y
        ensures Apart(x, y)
      {
        assert x == room || old(Owns(x));
        assert y == room || old(Owns(y));
        assert x == room || y == room || old(Apart(x, y));
      }
    }

    /** The history does not depend on which rooms are live. */
    twostate lemma HistoryIgnoresRooms()
      requires old(History()) && everRooms == old(everRooms) && everConns == old(everConns)
      requires allocations == old(allocations)
      requires forall x <- everRooms :: unchanged(x)
      requires forall c <- everConns :: unchanged(c)
      ensures History()
    {
      forall x <- everRooms
        ensures Owns(x) && x.Fields(allocations) && x.Traces()
      {
        assert old(Owns(x)) && old(x.Fields(allocations)) && old(x.Traces());
      }
      forall x <- everRooms, y <- everRooms | x != y
        ensures Apart(x, y)
      {
        assert old(Apart(x, y));
      }
    }

    method RemoveRoom(code: string)
      requires Keyed() && History() && code in rooms && LiveJoined(rooms[code])
      modifies `rooms
      ensures Valid() && rooms == old(rooms) - {code}
    {
      hide History;
      rooms := rooms - {code};
      HistoryIgnoresRooms();
    }

    method JoinClient(code: string, clientConn: PeerConn, now: int, later: int, ttl: int,
                      hostWriteOk: bool, clientWriteOk: bool)
      returns (matchId: u32, room: Room?, err: Status)
      requires Valid() && clientConn !in everConns && clientConn.sent == []
      modifies `rooms, `matchIndex, `allocations, `everConns, clientConn
      modifies if code in rooms then {rooms[code]} else {}
      modifies if code in rooms && rooms[code].HostConn != null then {rooms[code].HostConn} else {}
      ensures Valid()
      ensures code !in old(rooms) ==> err == ErrRoomNotFound && rooms == old(rooms) && allocations == old(allocations)
      ensures code in old(rooms) && (now > old(rooms[code].Expires) || old(rooms[code].State) != RoomWaiting) ==>
        && unchanged(old(rooms[code])) && everConns == old(everConns) && clientConn.sent == []
        && (old(rooms[code].HostConn) != null ==> unchanged(old(rooms[code].HostConn)))
      ensures code in old(rooms) && now > old(rooms[code].Expires) ==>
        err == ErrRoomExpired && rooms == old(rooms) - {code} && allocations == old(allocations)
      ensures code in old(rooms) && now <= old(rooms[code].Expires) && old(rooms[code].State) != RoomWaiting ==>
        err == ErrProtocolError && rooms == old(rooms) && allocations == old(allocations)
      ensures code in old(rooms) && now <= old(rooms[code].Expires) && old(rooms[code].State) == RoomWaiting ==>
        var r := old(rooms[code]);
        && r.State == RoomMatched && r.ClientConn == clientConn && allocations == old(allocations) + 1
        && r.serial == allocations && r.Expires == later + ttl && everConns == old(everConns) + {clientConn}
        && r.HostUdpAddr == old(rooms[code].HostUdpAddr) && r.ClientUdpAddr == old(rooms[code].ClientUdpAddr)
        && (r.HostConn != null ==> r.HostConn.sent == if hostWriteOk then [MatchInfo(r.MatchId)] else [])
        && (if (r.HostConn != null ==> hostWriteOk) && clientWriteOk
            then err == Ok && room == r && matchId == r.MatchId && rooms == old(rooms)
                 && clientConn.sent == [MatchInfo(r.MatchId)]
            else err == ErrProtocolError && room == null && rooms == old(rooms) - {code} && clientConn.sent == [])
      ensures err != Ok ==> room == null && matchId == 0
      ensures forall c: PeerConn <- old(everConns) :: old(c.sent) <= c.sent
    {
      hide History, Room.Traces, Room.Fields, Owns, Apart;
      if code !in rooms {
        return 0, null, ErrRoomNotFound;
      }
      var r := rooms[code];
      if now > r.Expires {
        RemoveRoom(code);
        return 0, null, ErrRoomExpired;
      }
      if r.State != RoomWaiting {
        return 0, null, ErrProtocolError;
      }
      Attach(r, clientConn, later + ttl);
      var delivered := SendMatchInfo(r, clientConn, hostWriteOk, clientWriteOk);
      if !delivered {
        RemoveRoom(code);
        return 0, null, ErrProtocolError;
      }
      return r.MatchId, r, Ok;
    }

    /** A connection stays with the room it was given to. */
    twostate lemma KeepsRoom(c: PeerConn)
      requires old(HasRoom(c)) && old(everRooms) <= everRooms
      requires forall x <- old(everRooms) :: old(x.ClientConn) != null ==> x.ClientConn == old(x.ClientConn)
      ensures HasRoom(c)
    {
    }

    /** A waiting room takes its client and a new id. */
    method Attach(r: Room, clientConn: PeerConn, expires: int)
      requires Valid() && r in everRooms && r.State == RoomWaiting
      requires clientConn !in everConns && clientConn.sent == []
      modifies `matchIndex, `allocations, `everConns, r
      ensures Keyed() && History() && LiveJoined(r)
      ensures allocations == old(allocations) + 1 && r.serial == allocations && r.State == RoomMatched
      ensures r.ClientConn == clientConn && r.Expires == expires && !r.joined
      ensures r.HostUdpAddr == old(r.HostUdpAddr) && r.ClientUdpAddr == old(r.ClientUdpAddr)
      ensures everConns == old(everConns) + {clientConn}
      ensures r.HostConn != null ==> r.HostConn.sent == []
    {
      hide HasRoom;
      HistoryOf(r);
      r.ClientConn := clientConn;
      r.MatchId := NextMatchId();
      r.State := RoomMatched;
      r.Expires := expires;
      r.serial := allocations;
      everConns := everConns + {clientConn};
      forall x <- everRooms
        ensures Owns(x) && x.Fields(allocations) && x.Traces()
      {
        if x != r {
          assert Owns(x) && x.Traces();
        }
      }
      forall x <- everRooms, y <- everRooms | x != y
        ensures Apart(x, y)
      {
        assert old(Apart(x, y)) && old(x.Fields(allocations)) && old(y.Fields(allocations));
      }
      forall c <- everConns
        ensures HasRoom(c)
      {
        if c != clientConn {
          KeepsRoom(c);
        } else {
          Joined(r, c);
        }
      }
    }

    lemma Joined(r: Room, c: PeerConn)
      requires r in everRooms && c == r.ClientConn
      ensures HasRoom(c)
    {
    }

    /** MatchInfo goes to the host and then to the client, each with its own outcome. */
    method SendMatchInfo(r: Room, clientConn: PeerConn, hostWriteOk: bool, clientWriteOk: bool)
      returns (delivered: bool)
      requires Keyed() && History() && LiveJoined(r) && r in everRooms
      requires r.State == RoomMatched && !r.joined && r.ClientConn == clientConn
      requires r.HostConn != null ==> r.HostConn.sent == []
      modifies r`joined, clientConn
      modifies if r.HostConn != null then {r.HostConn} else {}
      ensures Keyed() && History() && LiveJoined(r)
      ensures delivered == r.joined == ((r.HostConn != null ==> hostWriteOk) && clientWriteOk)
      ensures r.HostConn != null ==> r.HostConn.sent == if hostWriteOk then [MatchInfo(r.MatchId)] else []
      ensures clientConn.sent == if delivered then [MatchInfo(r.MatchId)] else []
    {
      var matchInfo := MatchInfo(r.MatchId);
      delivered := true;
      if r.HostConn != null {
        r.HostConn.Write(matchInfo, hostWriteOk);
        delivered := hostWriteOk;
      }
      if delivered {
        clientConn.Write(matchInfo, clientWriteOk);
        delivered := clientWriteOk;
      }
      r.joined := delivered;
      OthersUntouched(r);
    }

    /** Changing one room's traces leaves the rest of the history as it was. */
    twostate lemma OthersUntouched(r: Room)
      requires old(History()) && r in old(everRooms) && everRooms == old(everRooms) && everConns == old(everConns)
      requires allocations == old(allocations) && r.ClientConn == old(r.ClientConn)
      requires r.serial == old(r.serial)
      requires forall x <- everRooms :: x != r ==> unchanged(x)
      requires forall c <- everConns :: c != r.HostConn && c != r.ClientConn ==> unchanged(c)
      requires r.Fields(allocations) && r.Traces()
      ensures History()
    {
      forall x <- everRooms
        ensures Owns(x) && x.Fields(allocations) && x.Traces()
      {
        if x != r {
          assert old(Apart(x, r)) && old(Owns(x)) && old(x.Fields(allocations)) && old(x.Traces());
        }
      }
      forall x <- everRooms, y <- everRooms | x != y
        ensures Apart(x, y)
      {
        assert old(Apart(x, y));
      }
    }

    /** Walks the map in an arbitrary order. */
    method FindByMatchIdLocked(matchId: u32) returns (r: Room?)
      requires Valid()
      ensures r != null ==> r in rooms.Values && r.MatchId == matchId && r.State != RoomWaiting
      ensures r == null ==> forall code <- rooms :: rooms[code].MatchId != matchId || rooms[code].State == RoomWaiting
    {
      var left := rooms.Keys;
      while left != {}
        invariant left <= rooms.Keys
        invariant forall code <- rooms ::
          code in left || rooms[code].MatchId != matchId || rooms[code].State == RoomWaiting
        decreases left
      {
        var code :| code in left;
        if rooms[code].MatchId == matchId && (rooms[code].State == RoomMatched || rooms[code].State == RoomDone) {
          return rooms[code];
        }
        left := left - {code};
      }
      r := null;
    }

    lemma HistoryOf(r: Room)
      requires History() && r in everRooms
      ensures Owns(r) && r.Fields(allocations) && r.Traces()
    {
    }

    lemma LiveRoom(r: Room)
      requires Valid() && r in rooms.Values && r.State != RoomWaiting
      ensures r in everRooms && r.joined && r.ClientConn != null && r.ClientConn in everConns
      ensures r.HostConn != null ==> r.HostConn in everConns
    {
      assert Owns(r) && r.Fields(allocations);
    }

    /** The first datagram of each side forwards its address to the other side. */
    method RecordPeerUdpAddr(matchId: u32, isClient: bool, udpAddr: string, writeOk: bool)
      returns (tunInfo: Option<Message>, opposite: PeerConn?, err: Status, ghost found: Room?)
      requires Valid()
      modifies `pending, everRooms, everConns
      ensures Valid()
      ensures err == ErrRoomNotFound <==> found == null
      ensures found == null ==>
        forall code <- rooms :: old(rooms[code].MatchId) != matchId || old(rooms[code].State) == RoomWaiting
      ensures found != null ==>
        found in rooms.Values && old(found.MatchId) == matchId && old(found.State) != RoomWaiting
      ensures forall r <- everRooms :: r != found ==> unchanged(r)
      ensures forall c <- everConns :: c != opposite ==> c.sent == old(c.sent)
      ensures opposite != null ==> found != null && opposite == if isClient then found.HostConn else found.ClientConn
      ensures found != null ==> found.MatchId == old(found.MatchId) && found.serial == old(found.serial)
      ensures found != null ==>
        var sent := if isClient then old(found.ClientTunSent) else old(found.HostTunSent);
        if found.HostConn == null then
          err == ErrProtocolError && tunInfo == None && opposite == null && unchanged(found)
        else
          && (opposite == null <==> !sent && !writeOk)
          && (sent ==> err == Ok && tunInfo == None && unchanged(found) && unchanged(opposite))
          && (!sent ==> if isClient then found.ClientTunSent == writeOk && found.ClientUdpAddr == udpAddr
                        else found.HostTunSent == writeOk && found.HostUdpAddr == udpAddr)
          && (!sent && !writeOk ==> err == ErrWrite && tunInfo == None)
          && (!sent && writeOk ==>
                && err == Ok && tunInfo == Some(TunInfo(matchId, udpAddr))
                && opposite.sent == old(opposite.sent) + [TunInfo(matchId, udpAddr)])
      ensures found != null && old(found.ClientTunSent) ==>
        found.ClientTunSent && found.ClientUdpAddr == old(found.ClientUdpAddr)
      ensures found != null && old(found.HostTunSent) ==>
        found.HostTunSent && found.HostUdpAddr == old(found.HostUdpAddr)
      ensures pending == old(pending)
        + (if found != null && found.State == RoomDone && old(found.State) != RoomDone
           then {Deferred(found.Code, found.MatchId, found)} else {})
    {
      hide History, Room.Traces, Room.Fields;
      tunInfo, opposite := None, null;
      var room := FindByMatchIdLocked(matchId);
      found := room;
      if room == null {
        return None, null, ErrRoomNotFound, null;
      }
      LiveRoom(room);
      var sender, alreadySent;
      if isClient {
        sender, opposite, alreadySent := room.ClientConn, room.HostConn, room.ClientTunSent;
      } else {
        sender, opposite, alreadySent := room.HostConn, room.ClientConn, room.HostTunSent;
      }
      if sender == null || opposite == null {
        return None, null, ErrProtocolError, room;
      }
      if alreadySent {
        return None, opposite, Ok, room;
      }
      err := Forward(room, isClient, udpAddr, opposite, writeOk);
      if err != Ok {
        return None, null, err, room;
      }
      tunInfo := Some(TunInfo(matchId, udpAddr));
    }

    /** Records the address and writes TunInfo to the opposite peer. */
    method Forward(room: Room, isClient: bool, udpAddr: string, opposite: PeerConn, writeOk: bool) returns (err: Status)
      requires Valid() && room in everRooms && room.joined && room.HostConn != null
      requires opposite == if isClient then room.HostConn else room.ClientConn
      requires if isClient then !room.ClientTunSent else !room.HostTunSent
      modifies `pending, opposite
      modifies room`State, room`ClientUdpAddr, room`HostUdpAddr, room`ClientTunSent, room`HostTunSent
      ensures Valid()
      ensures err == if writeOk then Ok else ErrWrite
      ensures opposite.sent == old(opposite.sent) + if writeOk then [TunInfo(room.MatchId, udpAddr)] else []
      ensures if isClient then room.ClientTunSent == writeOk && room.ClientUdpAddr == udpAddr
                               && room.HostTunSent == old(room.HostTunSent) && room.HostUdpAddr == old(room.HostUdpAddr)
              else room.HostTunSent == writeOk && room.HostUdpAddr == udpAddr
                   && room.ClientTunSent == old(room.ClientTunSent) && room.ClientUdpAddr == old(room.ClientUdpAddr)
      ensures pending == old(pending)
        + (if room.State == RoomDone && old(room.State) != RoomDone
           then {Deferred(room.Code, room.MatchId, room)} else {})
    {
      hide History, Room.Traces;
      HistoryOf(room);
      room.Record(isClient, udpAddr, opposite, writeOk, allocations);
      if room.State == RoomDone {
        pending := pending + {Deferred(room.Code, room.MatchId, room)};
      }
      err := if writeOk then Ok else ErrWrite;
      OthersUntouched(room);
    }

    method Delete(code: string)
      requires Valid()
      modifies `rooms
      ensures Valid() && rooms == old(rooms) - {code}
    {
      hide History;
      rooms := rooms - {code};
      HistoryIgnoresRooms();
    }

    method DeleteIfMatch(code: string, matchId: u32)
      requires Valid()
      modifies `rooms
      ensures Valid()
      ensures rooms ==
        if code in old(rooms) && old(rooms[code]).MatchId == matchId then old(rooms) - {code} else old(rooms)
    {
      if code in rooms && rooms[code].MatchId == matchId {
        RemoveRoom(code);
      }
    }

    /** A grace-period deletion removes its own room if that is still there, and
        another room only when whole id cycles lie between the two matches. */
    method RunDeferred(ghost d: Deferred, code: string, matchId: u32)
      requires Valid() && d in pending && d.code == code && d.matchId == matchId
      modifies `rooms, `pending
      ensures Valid() && pending == old(pending) - {d}
      ensures rooms ==
        if code in old(rooms) && (old(rooms[code]) == d.room || Aliases(old(rooms[code]), d.room))
        then old(rooms) - {code} else old(rooms)
      ensures code in old(rooms) && Aliases(old(rooms[code]), d.room) && old(rooms[code]) != d.room ==>
        var gap := old(rooms[code]).serial - d.room.serial; gap >= ID_CYCLE || gap <= -ID_CYCLE
    {
      hide History;
      if code in rooms {
        SameRoomIds(rooms[code], d.room);
      }
      DeleteIfMatch(code, matchId);
      pending := pending - {d};
      HistoryIgnoresRooms();
    }

    ghost predicate Aliases(r1: Room, r2: Room)
      reads r1, r2
    {
      r1.State != RoomWaiting && (r1.serial - r2.serial) % ID_CYCLE == 0
    }

    /** Two matched rooms share an id exactly when whole id cycles separate them. */
    lemma SameRoomIds(r1: Room, r2: Room)
      requires Valid() && r1 in everRooms && r2 in everRooms && r2.State != RoomWaiting
      ensures r1.MatchId == r2.MatchId <==> Aliases(r1, r2)
      ensures r1 != r2 && r1.MatchId == r2.MatchId ==>
        var gap := r1.serial - r2.serial; gap >= ID_CYCLE || gap <= -ID_CYCLE
    {
      hide Room.Traces, HasRoom, Owns;
      assert r1.Fields(allocations) && r2.Fields(allocations);
      if r1.serial != 0 {
        SameId(r1.serial, r2.serial);
        if r1 != r2 {
          assert Apart(r1, r2);
        }
      }
    }

    /** Lookup by id is deterministic while less than a cycle separates live rooms. */
    lemma LookupIsDeterministic(code1: string, code2: string)
      requires Valid() && code1 in rooms && code2 in rooms
      requires rooms[code1].State != RoomWaiting && rooms[code2].State != RoomWaiting
      requires -ID_CYCLE < rooms[code1].serial - rooms[code2].serial < ID_CYCLE
      ensures rooms[code1].MatchId == rooms[code2].MatchId ==> code1 == code2
    {
      SameRoomIds(rooms[code1], rooms[code2]);
    }

    /** The disconnect cleanup removes exactly the room it was given, if it is live. */
    method DeleteIfSame(r: Room)
      requires Valid() && r in everRooms
      modifies `rooms
      ensures Valid() && r !in rooms.Values
      ensures forall c <- old(rooms) :: c !in rooms <==> old(rooms[c]) == r
      ensures forall c <- rooms :: c in old(rooms) && rooms[c] == old(rooms[c])
    {
      if r.Code in rooms && rooms[r.Code] == r {
        RemoveRoom(r.Code);
      }
    }

    method Cleanup(now: int) returns (removed: nat)
      requires Valid()
      modifies `rooms
      ensures Valid()
      ensures rooms == map code | code in old(rooms) && now <= old(rooms[code]).Expires :: old(rooms[code])
      ensures removed == |old(rooms)| - |rooms|
    {
      hide History;
      var left := rooms.Keys;
      removed := 0;
      while left != {}
        invariant Valid() && left <= rooms.Keys <= old(rooms).Keys
        invariant forall code <- rooms :: rooms[code] == old(rooms[code])
        invariant forall code <- old(rooms) :: code in rooms <==> code in left || now <= old(rooms[code]).Expires
        invariant removed == |old(rooms)| - |rooms|
        decreases left
      {
        var code :| code in left;
        if now > rooms[code].Expires {
          RemoveRoom(code);
          removed := removed + 1;
        }
        left := left - {code};
      }
    }

    /** In every run, what any connection was sent follows the grammar. */
    lemma TracesFollowGrammar()
      requires Valid()
      ensures forall c <- everConns :: Grammar(c.sent)
    {
      forall c <- everConns
        ensures Grammar(c.sent)
      {
        var r :| r in everRooms && (c == r.HostConn || c == r.ClientConn);
        assert r.Traces();
      }
    }

    /** Both peers of a room get the same id, the client only after the host, and each
        gets the address recorded for the other. */
    lemma PeersAgree(r: Room)
      requires Valid() && r in everRooms && r.HostConn != null && r.ClientConn != null
      ensures var h, c := r.HostConn.sent, r.ClientConn.sent;
        && (c != [] ==> h != [] && h[0] == c[0] == MatchInfo(r.MatchId))
        && (|h| == 2 ==> h[1] == TunInfo(r.MatchId, r.ClientUdpAddr))
        && (|c| == 2 ==> c[1] == TunInfo(r.MatchId, r.HostUdpAddr))
        && (r.State == RoomDone <==> |h| == 2 && |c| == 2)
    {
    }
  }
}
