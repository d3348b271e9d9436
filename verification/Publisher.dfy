/** The lobby publisher: the server submits occupancies, one worker posts them. Each
    method is one critical section; the post itself happens between `Begin` and `Finish`. */
module Publisher {
  import opened Grid

  const RETRY_MIN_MS := 1000
  const RETRY_MAX_MS := 30000

  datatype LobbyRoom = LobbyRoom(players: nat, dirty: bool, offlineSent: bool, nextAttemptAt: nat, retryMs: nat)

  /** A post: for which room, whether it announces the room's end, and the occupancy it carries. */
  datatype Request = Request(room: nat, offline: bool, players: nat)

  /** How the last finished online post of a room went. */
  datatype Outcome = Never | Succeeded(players: nat) | Failed(at: nat)

  datatype Decision = Wait | Exit | Post(request: Request, timeoutMs: nat)

  datatype Step =
    | Submission(room: int, players: int)
    | WorkerBegins(now: nat)
    | WorkerFinishes(now: nat, ok: bool)
    | Shutdown(now: nat)

  function Backoff(retryMs: nat): nat {
    if retryMs < RETRY_MAX_MS / 2 then retryMs * 2 else RETRY_MAX_MS
  }

  /** The delay after n failures in a row. */
  function DelayAfter(n: nat): nat {
    if n == 0 then RETRY_MIN_MS else Backoff(DelayAfter(n - 1))
  }

  /** The delays never shrink, and settle at half a minute after five failures. */
  lemma {:induction false} DelaysSettle(n: nat)
    ensures RETRY_MIN_MS <= DelayAfter(n) <= RETRY_MAX_MS && DelayAfter(n) <= DelayAfter(n + 1)
    ensures n >= 5 <==> DelayAfter(n) == RETRY_MAX_MS
  {
    if n > 0 {
      DelaysSettle(n - 1);
      assert DelayAfter(4) == 16000 && DelayAfter(3) == 8000;
    }
  }

  /** Nothing is posted for a room after its offline post, and nothing online after any. */
  ghost predicate Orderly(log: seq<Request>) {
    forall i, j :: 0 <= i < j < |log| && log[i].offline ==> log[j].offline && log[j].room != log[i].room
  }

  ghost predicate Retired(log: seq<Request>, room: nat) {
    exists i :: 0 <= i < |log| && log[i].offline && log[i].room == room
  }

  class Publisher {
    const rooms: array<LobbyRoom>
    const refreshMs: nat
    const timeoutMs: nat
    const shutdownMs: nat
    var stopping: bool
    var shutdownAt: nat
    var exited: bool
    /** The post the worker is waiting for. */
    var inFlight: Option<Request>

    /** Every post begun, and how each room's last online post went. */
    ghost var log: seq<Request>
    ghost var last: seq<Outcome>

    /** No update is lost: a room is marked, or its current occupancy is on its way, or
        was the last thing posted, or a retry is due within half a minute of the failure. */
    ghost predicate Current(i: nat)
      requires i < rooms.Length && |last| == rooms.Length
      reads this`inFlight, this`last, rooms
    {
      var r := rooms[i];
      r.dirty ||
      if inFlight.Some? && inFlight.value.room == i && !inFlight.value.offline then inFlight.value.players == r.players
      else match last[i]
           case Never => false
           case Succeeded(players) => players == r.players
           case Failed(at) => at + RETRY_MIN_MS <= r.nextAttemptAt <= at + RETRY_MAX_MS
    }

    ghost predicate RoomOk(i: nat)
      requires i < rooms.Length
      reads this`log, rooms
    {
      && rooms[i].players <= 4 && RETRY_MIN_MS <= rooms[i].retryMs <= RETRY_MAX_MS
      && (rooms[i].offlineSent <==> Retired(log, i))
    }

    ghost predicate Valid()
      reads this, rooms
    {
      && rooms.Length > 0 && timeoutMs > 0 && |last| == rooms.Length
      && (forall i: nat :: i < rooms.Length ==> RoomOk(i) && Current(i))
      && Orderly(log) && (forall k :: 0 <= k < |log| ==> log[k].room < rooms.Length && (log[k].offline ==> stopping))
      && (inFlight.Some? ==> log != [] && inFlight.value == log[|log| - 1] && !exited)
    }

    constructor (count: nat, refreshMs: nat, timeoutMs: nat, shutdownMs: nat)
      requires count > 0 && timeoutMs > 0
      ensures Valid() && fresh(rooms) && rooms.Length == count && log == [] && !stopping && !exited && inFlight.None?
      ensures forall i :: 0 <= i < count ==> rooms[i] == LobbyRoom(0, true, false, 0, RETRY_MIN_MS)
    {
      rooms := new LobbyRoom[count](_ => LobbyRoom(0, true, false, 0, RETRY_MIN_MS));
      this.refreshMs, this.timeoutMs, this.shutdownMs := refreshMs, timeoutMs, shutdownMs;
      stopping, shutdownAt, exited, inFlight := false, 0, false, None;
      log, last := [], seq(count, _ => Never);
      new;
      forall i: nat | i < count
        ensures RoomOk(i) && Current(i)
      {
        assert rooms[i].dirty;
      }
    }

    /** lobby_publisher_submit */
    method Submit(room: int, players: int)
      requires Valid()
      modifies rooms
      ensures Valid()
      ensures var p := if players < 0 then 0 else if players > 4 then 4 else players;
        forall i :: 0 <= i < rooms.Length ==>
          rooms[i] == if i == room && !stopping && old(rooms[i].players) != p
                      then old(rooms[i]).(players := p, dirty := true)
                      else old(rooms[i])
    {
      if room < 0 || room >= rooms.Length {
        return;
      }
      var p := players;
      if p < 0 {
        p := 0;
      }
      if p > 4 {
        p := 4;
      }
      if !stopping && rooms[room].players != p {
        rooms[room] := rooms[room].(players := p, dirty := true);
      }
      forall i: nat | i < rooms.Length
        ensures RoomOk(i) && Current(i)
      {
        assert old(RoomOk(i)) && old(Current(i));
      }
    }

    /** pick_online_request: the first room that is marked or whose time has come. Its
        mark is cleared, so `Current` holds of it again only once the caller posts. */
    method PickOnlineRequest(now: nat) returns (pick: Option<nat>)
      requires Valid()
      modifies rooms
      ensures pick.None? ==>
        Valid() &&
        (forall i :: 0 <= i < rooms.Length ==>
          rooms[i] == old(rooms[i]) && !rooms[i].dirty && now < rooms[i].nextAttemptAt)
      ensures pick.Some? ==>
        && pick.value < rooms.Length
        && (old(rooms[pick.value].dirty) || now >= old(rooms[pick.value].nextAttemptAt))
        && (forall i :: 0 <= i < rooms.Length ==>
              rooms[i] == if i == pick.value then old(rooms[i]).(dirty := false) else old(rooms[i]))
        && (forall i :: 0 <= i < pick.value ==> !rooms[i].dirty && now < rooms[i].nextAttemptAt)
    {
      var i := 0;
      while i < rooms.Length
        invariant 0 <= i <= rooms.Length && Valid()
        invariant forall j :: 0 <= j < rooms.Length ==> rooms[j] == old(rooms[j])
        invariant forall j :: 0 <= j < i ==> !rooms[j].dirty && now < rooms[j].nextAttemptAt
      {
        if rooms[i].dirty || now >= rooms[i].nextAttemptAt {
          rooms[i] := rooms[i].(dirty := false);
          return Some(i);
        }
        i := i + 1;
      }
      return None;
    }

    /** The first room not yet taken offline. */
    method PickOfflineRequest() returns (pick: Option<nat>)
      requires Valid()
      modifies rooms
      ensures pick.None? ==>
        Valid() && (forall i :: 0 <= i < rooms.Length ==> rooms[i] == old(rooms[i]) && rooms[i].offlineSent)
      ensures pick.Some? ==>
        && pick.value < rooms.Length && !old(rooms[pick.value].offlineSent)
        && (forall i :: 0 <= i < rooms.Length ==>
              rooms[i] == if i == pick.value then old(rooms[i]).(offlineSent := true) else old(rooms[i]))
    {
      var i := 0;
      while i < rooms.Length
        invariant 0 <= i <= rooms.Length && Valid()
        invariant forall j :: 0 <= j < rooms.Length ==> rooms[j] == old(rooms[j])
        invariant forall j :: 0 <= j < i ==> rooms[j].offlineSent
      {
        if !rooms[i].offlineSent {
          rooms[i] := rooms[i].(offlineSent := true);
          return Some(i);
        }
        i := i + 1;
      }
      return None;
    }

    /** A request leaves for a room that has just been picked, and marked accordingly. */
    ghost predicate Ready(q: Request)
      requires q.room < rooms.Length && |last| == rooms.Length
      reads this, rooms
    {
      && q.players == rooms[q.room].players <= 4 && q.offline == stopping && !Retired(log, q.room)
      && RETRY_MIN_MS <= rooms[q.room].retryMs <= RETRY_MAX_MS && rooms[q.room].offlineSent == q.offline
      && (q.offline ==> Current(q.room))
    }

    /** The rest of the critical section: the request is on its way. */
    method Launch(q: Request)
      requires rooms.Length > 0 && timeoutMs > 0 && |last| == rooms.Length && inFlight.None? && !exited
      requires q.room < rooms.Length && Ready(q)
      requires forall i: nat :: i < rooms.Length && i != q.room ==> RoomOk(i) && Current(i)
      requires Orderly(log) && forall k :: 0 <= k < |log| ==> log[k].room < rooms.Length && (log[k].offline ==> stopping)
      modifies this`inFlight, this`log
      ensures Valid() && inFlight == Some(q) && log == old(log) + [q]
    {
      LogGrows(log, q);
      inFlight := Some(q);
      log := log + [q];
      forall i: nat | i < rooms.Length
        ensures RoomOk(i) && Current(i)
      {
        assert i != q.room ==> old(RoomOk(i)) && old(Current(i));
        RetiredGrows(old(log), q, i);
      }
    }

    /** The worker's first critical section: what to post, or to wait, or to leave. */
    method Begin(now: nat) returns (d: Decision)
      requires Valid() && inFlight.None? && !exited
      modifies this`exited, this`inFlight, this`log, rooms
      ensures Valid()
      ensures d.Exit? <==> exited
      ensures d.Exit? ==> stopping && (now >= shutdownAt || forall i :: 0 <= i < rooms.Length ==> rooms[i].offlineSent)
      ensures d.Wait? ==> !stopping && forall i :: 0 <= i < rooms.Length ==> !rooms[i].dirty && now < rooms[i].nextAttemptAt
      ensures d.Post? ==>
        && inFlight == Some(d.request) && log == old(log) + [d.request]
        && d.request.offline == stopping && d.request.players == rooms[d.request.room].players
        && 1 <= d.timeoutMs <= timeoutMs && (stopping ==> now + d.timeoutMs <= shutdownAt)
      ensures !d.Post? ==> inFlight.None? && log == old(log)
    {
      if stopping {
        if now >= shutdownAt {
          exited := true;
          return Exit;
        }
        var pick := PickOfflineRequest();
        if pick.None? {
          exited := true;
          return Exit;
        }
        var left := shutdownAt - now;
        var timeout := if left < timeoutMs then left else timeoutMs;
        d := Post(Request(pick.value, true, rooms[pick.value].players), timeout);
      } else {
        var pick := PickOnlineRequest(now);
        if pick.None? {
          return Wait;
        }
        d := Post(Request(pick.value, false, rooms[pick.value].players), timeoutMs);
      }
      assert old(RoomOk(d.request.room)) && old(Current(d.request.room));
      forall i: nat | i < rooms.Length && i != d.request.room
        ensures RoomOk(i) && Current(i)
      {
        assert old(RoomOk(i)) && old(Current(i));
      }
      Launch(d.request);
    }

    /** The worker's second critical section, after the post. */
    method Finish(now: nat, ok: bool)
      requires Valid() && inFlight.Some?
      modifies this`inFlight, this`last, rooms
      ensures Valid() && inFlight.None?
      ensures var q := old(inFlight).value;
        && (forall i :: 0 <= i < rooms.Length && (q.offline || i != q.room) ==> rooms[i] == old(rooms[i]))
        && (q.offline ==> last == old(last))
        && (!q.offline ==>
              && rooms[q.room] == (if ok
                   then old(rooms[q.room]).(retryMs := RETRY_MIN_MS, nextAttemptAt := now + refreshMs)
                   else old(rooms[q.room]).(retryMs := Backoff(old(rooms[q.room]).retryMs),
                                            nextAttemptAt := now + old(rooms[q.room]).retryMs))
              && last == old(last)[q.room := if ok then Succeeded(q.players) else Failed(now)])
    {
      var q := inFlight.value;
      assert RoomOk(q.room);
      inFlight := None;
      if !q.offline {
        var r := rooms[q.room];
        if ok {
          rooms[q.room] := r.(retryMs := RETRY_MIN_MS, nextAttemptAt := now + refreshMs);
          last := last[q.room := Succeeded(q.players)];
        } else {
          var retry := if r.retryMs != 0 then r.retryMs else RETRY_MIN_MS;
          rooms[q.room] := r.(nextAttemptAt := now + retry,
                              retryMs := if retry < RETRY_MAX_MS / 2 then retry * 2 else RETRY_MAX_MS);
          last := last[q.room := Failed(now)];
        }
      }
      forall i: nat | i < rooms.Length
        ensures RoomOk(i) && Current(i)
      {
        assert old(RoomOk(i)) && old(Current(i));
      }
    }

    /** lobby_publisher_stop, up to its wait for the worker. */
    method Stop(now: nat)
      requires Valid()
      modifies this`stopping, this`shutdownAt
      ensures Valid() && stopping && shutdownAt == now + shutdownMs
    {
      stopping := true;
      shutdownAt := now + shutdownMs;
    }

    /** Every interleaving of submissions, worker steps and a shutdown. */
    method Run(steps: seq<Step>)
      requires Valid()
      modifies this, rooms
      ensures Valid() && old(log) <= log
    {
      var k := 0;
      while k < |steps|
        invariant 0 <= k <= |steps| && Valid() && old(log) <= log
      {
        match steps[k] {
          case Submission(room, players) => Submit(room, players);
          case WorkerBegins(now) =>
            if inFlight.None? && !exited {
              var _ := Begin(now);
            }
          case WorkerFinishes(now, ok) =>
            if inFlight.Some? {
              Finish(now, ok);
            }
          case Shutdown(now) => Stop(now);
        }
        k := k + 1;
      }
    }
  }

  lemma RetiredGrows(log: seq<Request>, q: Request, room: nat)
    ensures Retired(log + [q], room) <==> Retired(log, room) || (q.offline && q.room == room)
  {
    var longer := log + [q];
    if Retired(log, room) {
      var i :| 0 <= i < |log| && log[i].offline && log[i].room == room;
      assert longer[i] == log[i];
    }
    if q.offline && q.room == room {
      assert longer[|log|] == q;
    }
  }

  lemma LogGrows(log: seq<Request>, q: Request)
    requires Orderly(log)
    requires forall i :: 0 <= i < |log| && log[i].offline ==> q.offline && !Retired(log, q.room)
    ensures Orderly(log + [q])
  {
  }
}
