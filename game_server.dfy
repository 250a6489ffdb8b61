/**
 * The player table of the guessing-game server (Assignment_04/gameServer.c).
 *
 * The server holds an array of `max_players` player records. Slot i, when
 * active, holds the player with id i + 1, its socket and a queue of at most
 * MAX_MESSAGES outgoing messages: `write_buffer[write_index ..
 * write_count - 1]` are still to be sent. Sockets, `select` and the clock
 * are parameters: the descriptor `accept` returns, the result of `read` and
 * `write`, and the `rand()` draw that picks a new target.
 *
 * Each operation is a method on the `Server` object that updates the array
 * in place, specified by a function on the sequence of records.
 */
module GameServer {

  import CString

  datatype Option<T> = None | Some(value: T)

  const MaxBuffer: nat := 1024
  const MaxMessages: nat := 10
  const TargetMax: nat := 100

  /** A player record: `write_buffer` has MAX_MESSAGES slots. */
  datatype Player = Player(socketFd: int, id: int, active: bool, buffer: seq<string>, writeCount: int, writeIndex: int)

  /** A record whose queue counters are in range; an inactive one has no socket. */
  predicate PlayerOk(p: Player) {
    && |p.buffer| == MaxMessages
    && 0 <= p.writeIndex <= p.writeCount <= MaxMessages
    && (p.active ==> p.socketFd >= 0)
    && (!p.active ==> p.socketFd == -1)
  }

  /** Every record is in range, and an active slot i holds the player with id i + 1. */
  predicate PlayersOk(ps: seq<Player>) {
    forall i :: 0 <= i < |ps| ==> PlayerOk(ps[i]) && (ps[i].active ==> ps[i].id == i + 1)
  }

  /** The messages still to be sent to a player, oldest first. */
  function Pending(p: Player): seq<string>
    requires PlayerOk(p)
  {
    p.buffer[p.writeIndex..p.writeCount]
  }

  /** The `strcpy` into `write_buffer[write_count]` and `write_count++`. */
  function Enqueue(p: Player, message: string): (q: Player)
    requires PlayerOk(p) && p.writeCount < MaxMessages
    ensures PlayerOk(q)
  {
    p.(buffer := p.buffer[p.writeCount := message], writeCount := p.writeCount + 1)
  }

  /** A queued message goes to the back of the queue, and nothing else about the player changes. */
  lemma EnqueuePending(p: Player, message: string)
    requires PlayerOk(p) && p.writeCount < MaxMessages
    ensures Pending(Enqueue(p, message)) == Pending(p) + [message]
    ensures var q := Enqueue(p, message); q.(buffer := p.buffer, writeCount := p.writeCount) == p
  {
    var q := Enqueue(p, message);
    assert Pending(q) == q.buffer[p.writeIndex..p.writeCount] + [message];
    assert q.buffer[p.writeIndex..p.writeCount] == Pending(p);
  }

  /** `snprintf` into a MAX_BUFFER buffer: the text cut to at most 1023 characters. */
  function Format(s: string): (r: string)
    ensures |r| < MaxBuffer && r <= s
    ensures |s| < MaxBuffer ==> r == s
  {
    CString.Truncate(s, MaxBuffer - 1)
  }

  function DisconnectMessage(id: int): string { Format("Player " + CString.IntDec(id) + " disconnected\n") }
  function WelcomeMessage(id: int): string { Format("Welcome to the game, your id is " + CString.IntDec(id) + "\n") }
  function JoinMessage(id: int): string { Format("Player " + CString.IntDec(id) + " joined the game\n") }
  function GuessMessage(id: int, guess: int): string {
    Format("Player " + CString.IntDec(id) + " guessed " + CString.IntDec(guess) + "\n")
  }
  function WinMessage(id: int): string { Format("Player " + CString.IntDec(id) + " wins\n") }
  function AnswerMessage(guess: int): string { Format("The correct guessing is " + CString.IntDec(guess) + "\n") }
  function HintMessage(guess: int, target: int): string {
    Format("The guess " + CString.IntDec(guess) + " is too " + (if guess > target then "high" else "low") + "\n")
  }

  // ---------------------------------------------------------------------
  // add_message_to_all_except and add_message_to_player

  /** A player `add_message_to_all_except(message, exceptId)` writes to. */
  predicate Receives(p: Player, exceptId: int) { p.active && p.id != exceptId }

  /** Every player the message goes to has room for n more messages. */
  predicate Room(ps: seq<Player>, exceptId: int, n: nat) {
    forall i :: 0 <= i < |ps| && Receives(ps[i], exceptId) ==> ps[i].writeCount + n <= MaxMessages
  }

  function Deliver(p: Player, message: string, exceptId: int): Player
    requires PlayerOk(p) && (Receives(p, exceptId) ==> p.writeCount < MaxMessages)
  {
    if Receives(p, exceptId) then Enqueue(p, message) else p
  }

  /** `add_message_to_all_except`: the message is queued for every active player but `exceptId`. */
  function Broadcast(ps: seq<Player>, message: string, exceptId: int): (r: seq<Player>)
    requires PlayersOk(ps) && Room(ps, exceptId, 1)
    ensures |r| == |ps|
    ensures forall i :: 0 <= i < |ps| ==> r[i] == Deliver(ps[i], message, exceptId)
  {
    seq(|ps|, i requires 0 <= i < |ps| => Deliver(ps[i], message, exceptId))
  }

  /**
   * A broadcast appends the message to the queue of exactly the active
   * players other than `exceptId` and leaves every other player as it was;
   * no player changes its id, its socket or whether it is active.
   */
  lemma BroadcastQueues(ps: seq<Player>, message: string, exceptId: int)
    requires PlayersOk(ps) && Room(ps, exceptId, 1)
    ensures var r := Broadcast(ps, message, exceptId);
      && PlayersOk(r)
      && (forall i :: 0 <= i < |ps| && Receives(ps[i], exceptId) ==> Pending(r[i]) == Pending(ps[i]) + [message])
      && (forall i :: 0 <= i < |ps| && !Receives(ps[i], exceptId) ==> r[i] == ps[i])
      && (forall i :: 0 <= i < |ps| ==>
            r[i].active == ps[i].active && r[i].id == ps[i].id && r[i].socketFd == ps[i].socketFd)
  {
    var r := Broadcast(ps, message, exceptId);
    forall i | 0 <= i < |ps| && Receives(ps[i], exceptId)
      ensures Pending(r[i]) == Pending(ps[i]) + [message]
    {
      EnqueuePending(ps[i], message);
    }
  }

  /** After a broadcast every player it reached has one message less room. */
  lemma BroadcastRoom(ps: seq<Player>, message: string, n: nat)
    requires PlayersOk(ps) && Room(ps, -1, n + 1)
    ensures Room(Broadcast(ps, message, -1), -1, n)
  {
  }

  /** The slot of the first active player with this id, as the lookup loops find it. */
  function FirstActive(ps: seq<Player>, id: int): (r: Option<nat>)
    ensures r.Some? ==> r.value < |ps| && ps[r.value].active && ps[r.value].id == id
    ensures r.Some? ==> forall j :: 0 <= j < r.value ==> !(ps[j].active && ps[j].id == id)
    ensures r.None? ==> forall j :: 0 <= j < |ps| ==> !(ps[j].active && ps[j].id == id)
  {
    if ps == [] then None
    else if ps[0].active && ps[0].id == id then Some(0)
    else match FirstActive(ps[1..], id)
      case None => None
      case Some(k) => Some(k + 1)
  }

  /** Since an active slot i holds id i + 1, the player with id `id` can only be in slot id - 1. */
  lemma FirstActiveIsSlot(ps: seq<Player>, id: int)
    requires PlayersOk(ps)
    ensures FirstActive(ps, id) == if 1 <= id <= |ps| && ps[id - 1].active then Some(id - 1) else None
  {
  }

  /** The active players with this id have room for one more message. */
  predicate HasRoom(ps: seq<Player>, id: int) {
    forall i :: 0 <= i < |ps| && ps[i].active && ps[i].id == id ==> ps[i].writeCount < MaxMessages
  }

  /** `add_message_to_player`: the message is queued for the active player with this id, if any. */
  function ToPlayer(ps: seq<Player>, message: string, id: int): (r: seq<Player>)
    requires PlayersOk(ps) && HasRoom(ps, id)
  {
    match FirstActive(ps, id)
    case None => ps
    case Some(i) => ps[i := Enqueue(ps[i], message)]
  }

  /** `add_message_to_player` queues the message for that player alone. */
  lemma ToPlayerQueues(ps: seq<Player>, message: string, id: int)
    requires PlayersOk(ps) && HasRoom(ps, id)
    ensures var r := ToPlayer(ps, message, id);
      && PlayersOk(r) && |r| == |ps|
      && (forall i :: 0 <= i < |ps| && ps[i].active && ps[i].id == id ==> Pending(r[i]) == Pending(ps[i]) + [message])
      && (forall i :: 0 <= i < |ps| && !(ps[i].active && ps[i].id == id) ==> r[i] == ps[i])
      && (forall i :: 0 <= i < |ps| ==> r[i].active == ps[i].active && r[i].id == ps[i].id)
  {
    FirstActiveIsSlot(ps, id);
    if 1 <= id <= |ps| && ps[id - 1].active {
      EnqueuePending(ps[id - 1], message);
    }
  }

  // ---------------------------------------------------------------------
  // disconnect_player

  /** The slot after `close`: inactive, with socket -1; its queue is kept. */
  function Leave(p: Player): (q: Player)
    requires PlayerOk(p)
    ensures PlayerOk(q) && !q.active
  {
    p.(active := false, socketFd := -1)
  }

  /** Nobody else waiting for a message has a full queue: the precondition the `strcpy`s need. */
  predicate CanDisconnect(ps: seq<Player>, id: int) {
    FirstActive(ps, id).Some? ==> Room(ps, id, 1)
  }

  /** `disconnect_player(id)`: the active player with that id leaves, and the others are told. */
  function Disconnected(ps: seq<Player>, id: int): (r: seq<Player>)
    requires PlayersOk(ps) && CanDisconnect(ps, id)
  {
    match FirstActive(ps, id)
    case None => ps
    case Some(i) => Broadcast(ps[i := Leave(ps[i])], DisconnectMessage(id), id)
  }

  /**
   * After `disconnect_player(id)` no active player has that id; a player
   * who was there is inactive with socket -1, and every other active player
   * has the disconnect message queued; a missing player changes nothing.
   */
  lemma DisconnectedProperties(ps: seq<Player>, id: int)
    requires PlayersOk(ps) && CanDisconnect(ps, id)
    ensures var r := Disconnected(ps, id);
      && PlayersOk(r) && |r| == |ps|
      && (forall i :: 0 <= i < |r| ==> !(r[i].active && r[i].id == id))
      && (FirstActive(ps, id).None? ==> r == ps)
      && (FirstActive(ps, id).Some? ==>
            var k := FirstActive(ps, id).value;
            && r[k].socketFd == -1 && Pending(r[k]) == Pending(ps[k])
            && forall i :: 0 <= i < |ps| && i != k ==>
                 r[i].active == ps[i].active
                 && (ps[i].active ==> Pending(r[i]) == Pending(ps[i]) + [DisconnectMessage(id)]))
  {
    match FirstActive(ps, id)
    case None =>
    case Some(k) =>
      var left := ps[k := Leave(ps[k])];
      BroadcastQueues(left, DisconnectMessage(id), id);
  }

  // ---------------------------------------------------------------------
  // find_available_id and handle_new_connection

  /** The number of active slots. */
  function CountActive(ps: seq<Player>): (n: nat)
    ensures n <= |ps|
  {
    if ps == [] then 0 else CountActive(ps[..|ps| - 1]) + (if ps[|ps| - 1].active then 1 else 0)
  }

  /** The first inactive slot. */
  function FreeSlot(ps: seq<Player>): (r: Option<nat>)
    ensures r.Some? ==> r.value < |ps| && !ps[r.value].active
    ensures r.Some? ==> forall j :: 0 <= j < r.value ==> ps[j].active
    ensures r.None? ==> forall j :: 0 <= j < |ps| ==> ps[j].active
  {
    if ps == [] then None
    else if !ps[0].active then Some(0)
    else match FreeSlot(ps[1..])
      case None => None
      case Some(k) => Some(k + 1)
  }

  /** Fewer active players than slots is the same as a free slot. */
  lemma {:induction false} FreeSlotExists(ps: seq<Player>)
    ensures CountActive(ps) < |ps| <==> FreeSlot(ps).Some?
    decreases |ps|
  {
    if ps != [] {
      var front := ps[..|ps| - 1];
      FreeSlotExists(front);
      if FreeSlot(front).Some? {
        var k := FreeSlot(front).value;
        assert !ps[k].active;
      } else if !ps[|ps| - 1].active {
        assert FreeSlot(ps).Some?;
      } else {
        assert forall j :: 0 <= j < |ps| ==> ps[j].active by {
          forall j | 0 <= j < |ps| ensures ps[j].active {
            if j < |ps| - 1 { assert ps[j] == front[j]; }
          }
        }
      }
    }
  }

  /** Changing one slot's `active` flag changes the count by one. */
  lemma {:induction false} CountActiveUpdate(ps: seq<Player>, k: nat, p: Player)
    requires k < |ps|
    ensures CountActive(ps[k := p]) ==
      CountActive(ps) - (if ps[k].active then 1 else 0) + (if p.active then 1 else 0)
    decreases |ps|
  {
    var n := |ps| - 1;
    if k < n {
      assert ps[k := p][..n] == ps[..n][k := p];
      CountActiveUpdate(ps[..n], k, p);
    } else {
      assert ps[k := p][..n] == ps[..n];
    }
  }

  /** The count depends only on the `active` flags. */
  lemma {:induction false} CountActiveSame(ps: seq<Player>, qs: seq<Player>)
    requires |ps| == |qs| && forall i :: 0 <= i < |ps| ==> ps[i].active == qs[i].active
    ensures CountActive(ps) == CountActive(qs)
    decreases |ps|
  {
    if ps != [] {
      CountActiveSame(ps[..|ps| - 1], qs[..|qs| - 1]);
    }
  }

  /** The precondition of `handle_new_connection`: if a player joins, everyone active has room for the join message. */
  predicate CanConnect(ps: seq<Player>, fd: int) {
    CountActive(ps) < |ps| && fd >= 0 ==> Room(ps, -1, 1)
  }

  /** The new player in slot k: the socket `accept` returned, id k + 1, and an empty queue. */
  function Joined(p: Player, fd: int, id: int): Player {
    p.(socketFd := fd, id := id, active := true, writeCount := 0, writeIndex := 0)
  }

  /**
   * The player joins in the free slot k: the record is set up, the welcome
   * message is queued for it, and the join message for everyone else.
   */
  function JoinAt(ps: seq<Player>, k: nat, fd: int): (r: seq<Player>)
    requires PlayersOk(ps) && k < |ps| && !ps[k].active && fd >= 0 && Room(ps, -1, 1)
  {
    var id := k + 1;
    var joined := ps[k := Joined(ps[k], fd, id)];
    WelcomeQueued(ps, k, fd);
    Broadcast(ToPlayer(joined, WelcomeMessage(id), id), JoinMessage(id), id)
  }

  /** After the welcome message only the new player's queue has changed. */
  lemma WelcomeQueued(ps: seq<Player>, k: nat, fd: int)
    requires PlayersOk(ps) && k < |ps| && !ps[k].active && fd >= 0 && Room(ps, -1, 1)
    ensures var joined := ps[k := Joined(ps[k], fd, k + 1)];
      && PlayersOk(joined) && HasRoom(joined, k + 1)
      && var w := ToPlayer(joined, WelcomeMessage(k + 1), k + 1);
      && PlayersOk(w) && |w| == |ps| && Room(w, k + 1, 1)
      && w[k].active && w[k].id == k + 1 && w[k].socketFd == fd
      && Pending(w[k]) == [WelcomeMessage(k + 1)]
      && forall i :: 0 <= i < |ps| && i != k ==> w[i] == ps[i]
  {
    var id := k + 1;
    var joined := ps[k := Joined(ps[k], fd, id)];
    assert PlayersOk(joined);
    ToPlayerQueues(joined, WelcomeMessage(id), id);
    assert Pending(joined[k]) == [];
  }

  /** What a join does to the slots, for any free slot k. */
  lemma JoinAtProperties(ps: seq<Player>, k: nat, fd: int)
    requires PlayersOk(ps) && k < |ps| && !ps[k].active && fd >= 0 && Room(ps, -1, 1)
    ensures var r := JoinAt(ps, k, fd);
      && PlayersOk(r) && |r| == |ps|
      && r[k].active && r[k].id == k + 1 && r[k].socketFd == fd
      && Pending(r[k]) == [WelcomeMessage(k + 1)]
      && CountActive(r) == CountActive(ps) + 1
      && forall i :: 0 <= i < |ps| && i != k ==>
           r[i].active == ps[i].active
           && (ps[i].active ==> Pending(r[i]) == Pending(ps[i]) + [JoinMessage(k + 1)])
  {
    var id := k + 1;
    WelcomeQueued(ps, k, fd);
    var w := ToPlayer(ps[k := Joined(ps[k], fd, id)], WelcomeMessage(id), id);
    BroadcastQueues(w, JoinMessage(id), id);
    var r := Broadcast(w, JoinMessage(id), id);
    assert w == ps[k := w[k]];
    CountActiveUpdate(ps, k, w[k]);
    CountActiveSame(w, r);
  }

  /**
   * `handle_new_connection` when `accept` would return `fd`: nothing while
   * every slot is active (the connection is left in the backlog) or when
   * `accept` fails; otherwise the player joins in the first free slot.
   */
  function Connected(ps: seq<Player>, fd: int): (r: seq<Player>)
    requires PlayersOk(ps) && CanConnect(ps, fd)
  {
    if CountActive(ps) >= |ps| || fd < 0 then ps
    else match FreeSlot(ps)
      case None => ps
      case Some(k) => JoinAt(ps, k, fd)
  }

  /**
   * A join fills the first free slot k with the player with id k + 1, whose
   * queue holds just the welcome message, and queues the join message for
   * every other active player: one more player is active. With every slot
   * taken, or when `accept` fails, nothing changes.
   */
  lemma ConnectedProperties(ps: seq<Player>, fd: int)
    requires PlayersOk(ps) && CanConnect(ps, fd)
    ensures var r := Connected(ps, fd);
      && PlayersOk(r) && |r| == |ps|
      && (CountActive(ps) >= |ps| || fd < 0 ==> r == ps)
      && (CountActive(ps) < |ps| && fd >= 0 ==>
            && FreeSlot(ps).Some?
            && var k := FreeSlot(ps).value;
            && r[k].active && r[k].id == k + 1 && r[k].socketFd == fd
            && Pending(r[k]) == [WelcomeMessage(k + 1)]
            && CountActive(r) == CountActive(ps) + 1
            && forall i :: 0 <= i < |ps| && i != k ==>
                 r[i].active == ps[i].active
                 && (ps[i].active ==> Pending(r[i]) == Pending(ps[i]) + [JoinMessage(k + 1)]))
  {
    if CountActive(ps) < |ps| && fd >= 0 {
      FreeSlotExists(ps);
      JoinAtProperties(ps, FreeSlot(ps).value, fd);
    }
  }

  // ---------------------------------------------------------------------
  // handle_guess

  /** `generate_new_target` on the draw `rand()` returns. */
  function NewTarget(draw: nat): (t: int)
    ensures 1 <= t <= TargetMax
  {
    draw % TargetMax + 1
  }

  /** The loop that closes every active player's socket at the end of a round. */
  function EndRound(ps: seq<Player>): (r: seq<Player>)
    requires PlayersOk(ps)
    ensures |r| == |ps| && PlayersOk(r)
    ensures forall i :: 0 <= i < |ps| ==> r[i] == if ps[i].active then Leave(ps[i]) else ps[i]
  {
    seq(|ps|, i requires 0 <= i < |ps| => if ps[i].active then Leave(ps[i]) else ps[i])
  }

  /** The number of messages `handle_guess` queues for each player. */
  function GuessMessages(guess: int, target: int): nat { if guess == target then 3 else 2 }

  /** Two messages for every active player, one after the other. */
  function Broadcast2(ps: seq<Player>, m1: string, m2: string): (r: seq<Player>)
    requires PlayersOk(ps) && Room(ps, -1, 2)
  {
    BroadcastRoom(ps, m1, 1);
    BroadcastQueues(ps, m1, -1);
    Broadcast(Broadcast(ps, m1, -1), m2, -1)
  }

  lemma Broadcast2Queues(ps: seq<Player>, m1: string, m2: string)
    requires PlayersOk(ps) && Room(ps, -1, 2)
    ensures var r := Broadcast2(ps, m1, m2);
      && PlayersOk(r) && |r| == |ps|
      && (forall i :: 0 <= i < |ps| ==> r[i].active == ps[i].active)
      && (forall i :: 0 <= i < |ps| && ps[i].active ==> Pending(r[i]) == Pending(ps[i]) + [m1, m2])
  {
    BroadcastRoom(ps, m1, 1);
    BroadcastQueues(ps, m1, -1);
    var a := Broadcast(ps, m1, -1);
    BroadcastQueues(a, m2, -1);
  }

  /** A correct guess: the guess, win and answer messages for everyone, then the round ends. */
  function RoundWon(ps: seq<Player>, id: int, guess: int): (r: seq<Player>)
    requires PlayersOk(ps) && Room(ps, -1, 3)
  {
    BroadcastRoom(ps, GuessMessage(id, guess), 2);
    BroadcastQueues(ps, GuessMessage(id, guess), -1);
    var announced := Broadcast(ps, GuessMessage(id, guess), -1);
    Broadcast2Queues(announced, WinMessage(id), AnswerMessage(guess));
    EndRound(Broadcast2(announced, WinMessage(id), AnswerMessage(guess)))
  }

  lemma RoundWonProperties(ps: seq<Player>, id: int, guess: int)
    requires PlayersOk(ps) && Room(ps, -1, 3)
    ensures var r := RoundWon(ps, id, guess);
      && PlayersOk(r) && |r| == |ps|
      && (forall i :: 0 <= i < |r| ==> !r[i].active)
      && (forall i :: 0 <= i < |ps| && ps[i].active ==>
            Pending(r[i]) == Pending(ps[i]) + [GuessMessage(id, guess), WinMessage(id), AnswerMessage(guess)])
  {
    BroadcastRoom(ps, GuessMessage(id, guess), 2);
    BroadcastQueues(ps, GuessMessage(id, guess), -1);
    var announced := Broadcast(ps, GuessMessage(id, guess), -1);
    Broadcast2Queues(announced, WinMessage(id), AnswerMessage(guess));
  }

  /**
   * `handle_guess(id, guess)`: the guess is announced to every active
   * player; a correct one is followed by the win and answer messages, ends
   * the round for everybody and draws a new target; a wrong one is
   * followed by the hint "too high" or "too low".
   */
  function Guessed(ps: seq<Player>, target: int, id: int, guess: int, draw: nat): (r: (seq<Player>, int))
    requires PlayersOk(ps) && Room(ps, -1, GuessMessages(guess, target))
  {
    if guess == target then (RoundWon(ps, id, guess), NewTarget(draw))
    else (Broadcast2(ps, GuessMessage(id, guess), HintMessage(guess, target)), target)
  }

  /**
   * A correct guess leaves no player active, each having been sent the
   * guess, the win and the answer, and sets a target from 1 to 100; a wrong
   * guess keeps the target and the players and sends each the guess and
   * the hint, "high" exactly when the guess is above the target.
   */
  lemma GuessedProperties(ps: seq<Player>, target: int, id: int, guess: int, draw: nat)
    requires PlayersOk(ps) && Room(ps, -1, GuessMessages(guess, target))
    ensures var (r, t) := Guessed(ps, target, id, guess, draw);
      && PlayersOk(r) && |r| == |ps|
      && (guess == target ==>
            && t == NewTarget(draw)
            && (forall i :: 0 <= i < |r| ==> !r[i].active)
            && (forall i :: 0 <= i < |ps| && ps[i].active ==>
                  Pending(r[i]) == Pending(ps[i]) + [GuessMessage(id, guess), WinMessage(id), AnswerMessage(guess)]))
      && (guess != target ==>
            && t == target
            && (forall i :: 0 <= i < |ps| ==> r[i].active == ps[i].active)
            && (forall i :: 0 <= i < |ps| && ps[i].active ==>
                  Pending(r[i]) == Pending(ps[i]) + [GuessMessage(id, guess), HintMessage(guess, target)]))
  {
    if guess == target {
      RoundWonProperties(ps, id, guess);
    } else {
      Broadcast2Queues(ps, GuessMessage(id, guess), HintMessage(guess, target));
    }
  }

  /** Whatever the guess, every active player is told about it before anything else. */
  lemma GuessAnnounced(ps: seq<Player>, target: int, id: int, guess: int, draw: nat)
    requires PlayersOk(ps) && Room(ps, -1, GuessMessages(guess, target))
    ensures var r := Guessed(ps, target, id, guess, draw).0;
      && PlayersOk(r) && |r| == |ps|
      && forall i :: 0 <= i < |ps| && ps[i].active ==> Pending(ps[i]) + [GuessMessage(id, guess)] <= Pending(r[i])
  {
    GuessedProperties(ps, target, id, guess, draw);
    var r := Guessed(ps, target, id, guess, draw).0;
    var g := GuessMessage(id, guess);
    forall i | 0 <= i < |ps| && ps[i].active
      ensures Pending(ps[i]) + [g] <= Pending(r[i])
    {
      var a := Pending(ps[i]);
      if guess == target {
        assert a + [g, WinMessage(id), AnswerMessage(guess)] == (a + [g]) + [WinMessage(id), AnswerMessage(guess)];
      } else {
        assert a + [g, HintMessage(guess, target)] == (a + [g]) + [HintMessage(guess, target)];
      }
    }
  }

  // ---------------------------------------------------------------------
  // handle_player_read

  /** What `read` on the player's socket returned: 0, -1 with or without EAGAIN, or the bytes read. */
  datatype Input = Closed | Failed(eagain: bool) | Data(bytes: string)

  /** `read` into a MAX_BUFFER buffer returns between 1 and 1023 bytes. */
  predicate InputOk(input: Input) {
    input.Data? ==> 0 < |input.bytes| < MaxBuffer
  }

  /** The guess the player sent: `atoi` of the NUL-terminated buffer. */
  function ParsedGuess(bytes: string): int {
    CString.Atoi(CString.CStr(bytes))
  }

  /** A guess written as a decimal number, followed by anything that is not a digit, parses as that number. */
  lemma ParsedGuessOfDec(n: nat, rest: string)
    requires n <= CString.IntMax && CString.NoNul(rest) && (rest == [] || !CString.IsDigit(rest[0]))
    ensures ParsedGuess(CString.Dec(n) + rest) == n
  {
    var s := CString.Dec(n) + rest;
    assert CString.NoNul(s) by {
      forall i | 0 <= i < |s| ensures s[i] != '\0' {
        if i < |CString.Dec(n)| { assert CString.IsDigit(s[i]); } else { assert s[i] == rest[i - |CString.Dec(n)|]; }
      }
    }
    CString.CStrOfNoNul(s);
    CString.StrToLOfDec(n, rest);
  }

  /** Whoever the read makes `handle_guess` or `disconnect_player` write to has room. */
  predicate CanRead(ps: seq<Player>, target: int, id: int, input: Input) {
    FirstActive(ps, id).Some? ==>
      match input
      case Closed => Room(ps, id, 1)
      case Failed(eagain) => !eagain ==> Room(ps, id, 1)
      case Data(bytes) => ParsedGuess(bytes) > 0 ==> Room(ps, -1, GuessMessages(ParsedGuess(bytes), target))
  }

  /**
   * `handle_player_read(id)`: nothing for a missing player; a closed
   * connection or a failure other than EAGAIN disconnects the player; the
   * bytes read are parsed with `atoi`, and a guess above 0 is handled.
   */
  function Read(ps: seq<Player>, target: int, id: int, input: Input, draw: nat): (r: (seq<Player>, int))
    requires PlayersOk(ps) && InputOk(input) && CanRead(ps, target, id, input)
  {
    if FirstActive(ps, id).None? then (ps, target)
    else match input
      case Closed => (Disconnected(ps, id), target)
      case Failed(eagain) => if eagain then (ps, target) else (Disconnected(ps, id), target)
      case Data(bytes) =>
        var guess := ParsedGuess(bytes);
        if guess > 0 then Guessed(ps, target, id, guess, draw) else (ps, target)
  }

  /** Whether the read disconnects the player. */
  predicate LostConnection(input: Input) {
    input.Closed? || (input.Failed? && !input.eagain)
  }

  /**
   * Only a parsed guess above 0 reaches `handle_guess`, which then tells
   * every active player about it first; a lost connection leaves no active
   * player with that id and keeps the target; EAGAIN, a guess of 0 or less,
   * or a missing player change nothing.
   */
  lemma ReadProperties(ps: seq<Player>, target: int, id: int, input: Input, draw: nat)
    requires PlayersOk(ps) && InputOk(input) && CanRead(ps, target, id, input)
    ensures var (r, t) := Read(ps, target, id, input, draw);
      && PlayersOk(r) && |r| == |ps|
      && ((FirstActive(ps, id).None? || (input.Failed? && input.eagain) ||
           (input.Data? && ParsedGuess(input.bytes) <= 0)) ==> r == ps && t == target)
      && (FirstActive(ps, id).Some? && LostConnection(input) ==>
            t == target && forall i :: 0 <= i < |r| ==> !(r[i].active && r[i].id == id))
      && (FirstActive(ps, id).Some? && input.Data? && ParsedGuess(input.bytes) > 0 ==>
            forall i :: 0 <= i < |ps| && ps[i].active ==>
              Pending(ps[i]) + [GuessMessage(id, ParsedGuess(input.bytes))] <= Pending(r[i]))
  {
    if FirstActive(ps, id).Some? {
      match input
      case Closed => DisconnectedProperties(ps, id);
      case Failed(eagain) => if !eagain { DisconnectedProperties(ps, id); }
      case Data(bytes) =>
        var guess := ParsedGuess(bytes);
        if guess > 0 {
          GuessAnnounced(ps, target, id, guess, draw);
        }
    }
  }

  // ---------------------------------------------------------------------
  // handle_player_write

  /** A message was written: the index moves on, and both counters go back to 0 once the queue is drained. */
  function Advance(p: Player): (q: Player)
    requires PlayerOk(p) && p.writeIndex < p.writeCount
  {
    if p.writeIndex + 1 >= p.writeCount then p.(writeIndex := 0, writeCount := 0)
    else p.(writeIndex := p.writeIndex + 1)
  }

  /** Advancing drops the oldest pending message, and a drained queue has both counters at 0. */
  lemma AdvancePending(p: Player)
    requires PlayerOk(p) && p.writeIndex < p.writeCount
    ensures PlayerOk(Advance(p))
    ensures Pending(Advance(p)) == Pending(p)[1..]
    ensures Pending(Advance(p)) == [] <==> Advance(p).writeCount == 0
    ensures Advance(p).active == p.active && Advance(p).id == p.id && Advance(p).socketFd == p.socketFd
  {
  }

  /** The message `handle_player_write(id)` hands to `write`: the oldest pending one, if any. */
  function Sent(ps: seq<Player>, id: int): (m: Option<string>)
    requires PlayersOk(ps)
    ensures m.Some? <==> FirstActive(ps, id).Some? && Pending(ps[FirstActive(ps, id).value]) != []
    ensures m.Some? ==> m.value == Pending(ps[FirstActive(ps, id).value])[0]
  {
    match FirstActive(ps, id)
    case None => None
    case Some(k) => if ps[k].writeIndex >= ps[k].writeCount then None else Some(ps[k].buffer[ps[k].writeIndex])
  }

  /** A failed write disconnects the player, so the others need room for the message. */
  predicate CanWrite(ps: seq<Player>, id: int, written: int, eagain: bool)
    requires PlayersOk(ps)
  {
    Sent(ps, id).Some? && written < 0 && !eagain ==> CanDisconnect(ps, id)
  }

  /**
   * `handle_player_write(id)` when `write` returns `written` (with `eagain`
   * telling whether errno is EAGAIN): nothing for a missing player or an
   * empty queue; a failure other than EAGAIN disconnects the player; a
   * write of at least one byte advances the queue.
   */
  function Written(ps: seq<Player>, id: int, written: int, eagain: bool): (r: seq<Player>)
    requires PlayersOk(ps) && CanWrite(ps, id, written, eagain)
  {
    match FirstActive(ps, id)
    case None => ps
    case Some(k) =>
      if ps[k].writeIndex >= ps[k].writeCount then ps
      else if written < 0 && !eagain then Disconnected(ps, id)
      else if written > 0 then ps[k := Advance(ps[k])]
      else ps
  }

  /**
   * A write with nothing pending changes nothing; a successful write
   * removes exactly the message that was sent from the front of the queue
   * and touches no other player; a failed write (not EAGAIN) leaves no
   * active player with that id; a write of 0 bytes or EAGAIN changes nothing.
   */
  lemma WrittenProperties(ps: seq<Player>, id: int, written: int, eagain: bool)
    requires PlayersOk(ps) && CanWrite(ps, id, written, eagain)
    ensures var r := Written(ps, id, written, eagain);
      && PlayersOk(r) && |r| == |ps|
      && (Sent(ps, id).None? ==> r == ps)
      && (Sent(ps, id).Some? && written > 0 ==>
            var k := id - 1;
            && 0 <= k < |ps| && r == ps[k := r[k]] && r[k].active
            && [Sent(ps, id).value] + Pending(r[k]) == Pending(ps[k])
            && (Pending(r[k]) == [] ==> r[k].writeCount == 0))
      && (Sent(ps, id).Some? && written < 0 && !eagain ==>
            forall i :: 0 <= i < |r| ==> !(r[i].active && r[i].id == id))
      && ((written == 0 || (written < 0 && eagain)) ==> r == ps)
  {
    FirstActiveIsSlot(ps, id);
    var r := Written(ps, id, written, eagain);
    match FirstActive(ps, id)
    case None =>
      assert r == ps;
    case Some(k) =>
      if ps[k].writeIndex >= ps[k].writeCount {
        assert r == ps;
      } else if written < 0 && !eagain {
        assert r == Disconnected(ps, id);
        DisconnectedProperties(ps, id);
      } else if written > 0 {
        WrittenAdvance(ps, k, r);
      } else {
        assert r == ps;
      }
  }

  /** A successful write in slot k: that player's queue loses its oldest message, nothing else changes. */
  lemma WrittenAdvance(ps: seq<Player>, k: nat, r: seq<Player>)
    requires PlayersOk(ps) && k < |ps| && ps[k].active && ps[k].writeIndex < ps[k].writeCount
    requires r == ps[k := Advance(ps[k])]
    ensures PlayersOk(r) && |r| == |ps| && r == ps[k := r[k]] && r[k].active
    ensures [ps[k].buffer[ps[k].writeIndex]] + Pending(r[k]) == Pending(ps[k])
    ensures Pending(r[k]) == [] ==> r[k].writeCount == 0
  {
    AdvancePending(ps[k]);
    AdvancedOk(ps, k, r);
    assert r[k] == Advance(ps[k]);
    AdvanceFront(ps[k]);
  }

  /** Advancing one player's queue keeps every record in range. */
  lemma AdvancedOk(ps: seq<Player>, k: nat, r: seq<Player>)
    requires PlayersOk(ps) && k < |ps| && ps[k].writeIndex < ps[k].writeCount
    requires r == ps[k := Advance(ps[k])]
    ensures PlayersOk(r)
  {
    AdvancePending(ps[k]);
    forall i | 0 <= i < |r| ensures PlayerOk(r[i]) && (r[i].active ==> r[i].id == i + 1) {
      if i != k { assert r[i] == ps[i]; }
    }
  }

  /** The oldest pending message followed by what advancing leaves is the queue before. */
  lemma AdvanceFront(p: Player)
    requires PlayerOk(p) && p.writeIndex < p.writeCount
    ensures PlayerOk(Advance(p)) && [p.buffer[p.writeIndex]] + Pending(Advance(p)) == Pending(p)
  {
    AdvancePending(p);
    assert Pending(p)[0] == p.buffer[p.writeIndex];
    ConsTail(Pending(p));
  }

  /** Helper for the write step: a non-empty sequence is its head before its tail. */
  lemma ConsTail(s: seq<string>)
    requires s != []
    ensures [s[0]] + s[1..] == s
  {
  }

  // ---------------------------------------------------------------------
  // validate_arguments

  /** The port, seed and number of players from the command line. */
  datatype Config = Config(port: int, seed: int, maxPlayers: int)

  /** The largest port number the source lets through, and the largest a TCP port can be. */
  const PortLimitAsWritten: int := 65536
  const PortMax: int := 65535

  /**
   * `validate_arguments` on the arguments after the program name, as the
   * source writes it: exactly three, every character a digit (an empty
   * argument passes), converted with `atoi`; the port must lie in 1 ..
   * `limit` and there must be at least two players.
   */
  function CheckArguments(args: seq<string>, limit: int): (r: Option<Config>)
    ensures r.Some? ==> |args| == 3 && forall i :: 0 <= i < 3 ==> CString.AllDigits(args[i])
    ensures r.Some? ==> 1 <= r.value.port <= limit && r.value.maxPlayers >= 2
    ensures r.Some? ==> CString.IntMin <= r.value.seed <= CString.IntMax
    ensures r.Some? ==> r.value == Config(CString.Atoi(args[0]), CString.Atoi(args[1]), CString.Atoi(args[2]))
    ensures |args| == 3 && (forall i :: 0 <= i < 3 ==> CString.AllDigits(args[i]))
            && 1 <= CString.Atoi(args[0]) <= limit && CString.Atoi(args[2]) >= 2
            ==> r == Some(Config(CString.Atoi(args[0]), CString.Atoi(args[1]), CString.Atoi(args[2])))
  {
    if |args| != 3 || !(forall i :: 0 <= i < 3 ==> CString.AllDigits(args[i])) then None
    else
      var c := Config(CString.Atoi(args[0]), CString.Atoi(args[1]), CString.Atoi(args[2]));
      if c.port <= 0 || c.port > limit || c.maxPlayers <= 1 then None else Some(c)
  }

  /** The check as the source writes it: `port > 65536` is the rejection. */
  function ArgumentsAsWritten(args: seq<string>): (r: Option<Config>)
    ensures r.Some? ==> 1 <= r.value.port <= PortLimitAsWritten
  {
    CheckArguments(args, PortLimitAsWritten)
  }

  /** The check with the port range TCP allows. */
  function Arguments(args: seq<string>): (r: Option<Config>)
    ensures r.Some? ==> 1 <= r.value.port <= PortMax
  {
    CheckArguments(args, PortMax)
  }

  /** `htons` keeps the low 16 bits of the port number. */
  function PortField(port: int): (f: int)
    ensures 0 <= f < 0x1_0000
    ensures 0 <= port < 0x1_0000 ==> f == port
  {
    port % 0x1_0000
  }

  /** Decimal port and player count in range pass, with any all-digit seed, and keep their values. */
  lemma CheckArgumentsOfDecimal(port: nat, seedArg: string, players: nat, limit: int)
    requires 1 <= port <= limit && port <= CString.IntMax && 2 <= players <= CString.IntMax
    requires CString.AllDigits(seedArg)
    ensures CheckArguments([CString.Dec(port), seedArg, CString.Dec(players)], limit)
      == Some(Config(port, CString.Atoi(seedArg), players))
  {
    CString.AtoiOfDec(port);
    CString.AtoiOfDec(players);
    var args := [CString.Dec(port), seedArg, CString.Dec(players)];
    assert forall i :: 0 <= i < 3 ==> CString.AllDigits(args[i]);
  }

  /** Helper for the argument lemmas below: the decimal spellings they use. */
  lemma DecLiterals()
    ensures CString.Dec(0) == "0" && CString.Dec(2) == "2" && CString.Dec(80) == "80"
    ensures CString.Dec(65536) == "65536"
  {
  }

  /** The port "65536" passes the check as written, and `htons` turns it into port 0, an unchosen port. */
  lemma PortOverflowAsWritten()
    ensures ArgumentsAsWritten(["65536", "0", "2"]) == Some(Config(65536, 0, 2))
    ensures PortField(65536) == 0
  {
    DecLiterals();
    CString.AtoiOfDec(0);
    CheckArgumentsOfDecimal(65536, "0", 2, PortLimitAsWritten);
  }

  /** With the corrected bound every accepted port is the port the socket is bound to, and "65536" is refused. */
  lemma ArgumentsBindRequestedPort(args: seq<string>)
    ensures Arguments(args).Some? ==> PortField(Arguments(args).value.port) == Arguments(args).value.port
    ensures Arguments(["65536", "0", "2"]).None?
  {
    DecLiterals();
    CString.AtoiOfDec(65536);
  }

  /** Decimal arguments in range are accepted with their own values. */
  lemma ArgumentsOfDecimal(port: nat, seed: nat, players: nat)
    requires 1 <= port <= PortMax && seed <= CString.IntMax && 2 <= players <= CString.IntMax
    ensures Arguments([CString.Dec(port), CString.Dec(seed), CString.Dec(players)]) == Some(Config(port, seed, players))
  {
    CString.AtoiOfDec(seed);
    CheckArgumentsOfDecimal(port, CString.Dec(seed), players, PortMax);
  }

  /** An empty argument passes the digit loop, and `atoi` reads it as 0: an empty seed is accepted. */
  lemma EmptySeedAccepted()
    ensures Arguments(["80", "", "2"]) == Some(Config(80, 0, 2))
  {
    DecLiterals();
    assert CString.Atoi("") == 0;
    CheckArgumentsOfDecimal(80, "", 2, PortMax);
  }

  /**
   * `validate_arguments`: the count, then every character of every
   * argument, then the three `atoi` conversions and the range checks.
   * The port bound is the corrected one (see `ArgumentsAsWritten`).
   */
  method ValidateArguments(args: seq<string>) returns (r: Option<Config>)
    ensures r == Arguments(args)
  {
    if |args| != 3 {
      return None;
    }
    for i := 0 to 3
      invariant forall k :: 0 <= k < i ==> CString.AllDigits(args[k])
    {
      for j := 0 to |args[i]|
        invariant forall m :: 0 <= m < j ==> CString.IsDigit(args[i][m])
      {
        if !CString.IsDigit(args[i][j]) {
          return None;
        }
      }
    }
    var port := CString.Atoi(args[0]);
    var seed := CString.Atoi(args[1]);
    var maxPlayers := CString.Atoi(args[2]);
    if port <= 0 || port > PortMax || maxPlayers <= 1 {
      return None;
    }
    return Some(Config(port, seed, maxPlayers));
  }

  /** A slot as `main` sets it up: no socket, inactive, an empty queue. */
  function EmptySlot(): (p: Player)
    ensures PlayerOk(p) && !p.active && Pending(p) == []
  {
    Player(-1, 0, false, seq(MaxMessages, _ => ""), 0, 0)
  }

  /** The server: the player array and the number to guess. */
  class Server {
    const players: array<Player>
    var target: int

    predicate Valid()
      reads this, players
    {
      PlayersOk(players[..]) && 1 <= target <= TargetMax
    }

    /** `main`'s set-up: `max_players` empty slots and the first target. */
    constructor (maxPlayers: nat, draw: nat)
      ensures Valid() && fresh(players) && players.Length == maxPlayers
      ensures forall i :: 0 <= i < maxPlayers ==> players[i] == EmptySlot()
      ensures target == NewTarget(draw)
    {
      players := new Player[maxPlayers];
      target := NewTarget(draw);
      new;
      for i := 0 to maxPlayers
        invariant target == NewTarget(draw)
        invariant forall j :: 0 <= j < i ==> players[j] == EmptySlot()
      {
        players[i] := EmptySlot();
      }
    }

    /** The lookup loop of `add_message_to_player`, `disconnect_player` and the two handlers. */
    method FindPlayer(id: int) returns (slot: Option<nat>)
      ensures slot == FirstActive(players[..], id)
    {
      for i := 0 to players.Length
        invariant forall j :: 0 <= j < i ==> !(players[j].active && players[j].id == id)
      {
        if players[i].active && players[i].id == id {
          return Some(i);
        }
      }
      return None;
    }

    /** `find_available_id`: one more than the first inactive slot, or -1 when all are active. */
    method FindAvailableId() returns (id: int)
      ensures id == match FreeSlot(players[..]) case None => -1 case Some(k) => k + 1
      ensures id == -1 <==> CountActive(players[..]) == players.Length
    {
      FreeSlotExists(players[..]);
      for i := 0 to players.Length
        invariant forall j :: 0 <= j < i ==> players[j].active
      {
        if !players[i].active {
          return i + 1;
        }
      }
      return -1;
    }

    /** The counting loop at the start of `handle_new_connection`. */
    method ActiveCount() returns (n: nat)
      ensures n == CountActive(players[..])
    {
      n := 0;
      for i := 0 to players.Length
        invariant n == CountActive(players[..i])
      {
        assert players[..i + 1][..i] == players[..i];
        if players[i].active {
          n := n + 1;
        }
      }
      assert players[..players.Length] == players[..];
    }

    /** `add_message_to_all_except`. */
    method AddMessageToAllExcept(message: string, exceptId: int)
      requires Valid() && Room(players[..], exceptId, 1)
      modifies players
      ensures players[..] == Broadcast(old(players[..]), message, exceptId)
      ensures Valid()
    {
      ghost var before := players[..];
      BroadcastQueues(before, message, exceptId);
      for i := 0 to players.Length
        invariant forall j :: 0 <= j < i ==> players[j] == Deliver(before[j], message, exceptId)
        invariant forall j :: i <= j < players.Length ==> players[j] == before[j]
      {
        if players[i].active && players[i].id != exceptId {
          var p := players[i];
          players[i] := p.(buffer := p.buffer[p.writeCount := message], writeCount := p.writeCount + 1);
        }
      }
    }

    /** `add_message_to_player`. */
    method AddMessageToPlayer(message: string, id: int)
      requires Valid() && HasRoom(players[..], id)
      modifies players
      ensures players[..] == ToPlayer(old(players[..]), message, id)
      ensures Valid()
    {
      ghost var before := players[..];
      ToPlayerQueues(before, message, id);
      for i := 0 to players.Length
        invariant players[..] == before
        invariant forall j :: 0 <= j < i ==> !(players[j].active && players[j].id == id)
      {
        if players[i].active && players[i].id == id {
          var p := players[i];
          players[i] := p.(buffer := p.buffer[p.writeCount := message], writeCount := p.writeCount + 1);
          return;
        }
      }
    }

    /** `disconnect_player`. */
    method DisconnectPlayer(id: int)
      requires Valid() && CanDisconnect(players[..], id)
      modifies players
      ensures players[..] == Disconnected(old(players[..]), id)
      ensures Valid()
    {
      ghost var before := players[..];
      for i := 0 to players.Length
        invariant players[..] == before
        invariant forall j :: 0 <= j < i ==> !(players[j].active && players[j].id == id)
      {
        if players[i].active && players[i].id == id {
          players[i] := players[i].(active := false, socketFd := -1);
          assert players[..] == before[i := Leave(before[i])];
          AddMessageToAllExcept(DisconnectMessage(id), id);
          return;
        }
      }
    }

    /** The slot set-up of `handle_new_connection` for the free slot k: the record, the welcome and the join message. */
    method Join(k: nat, fd: int)
      requires Valid() && k < players.Length && !players[k].active && fd >= 0 && Room(players[..], -1, 1)
      modifies players
      ensures players[..] == JoinAt(old(players[..]), k, fd)
      ensures Valid()
    {
      ghost var before := players[..];
      WelcomeQueued(before, k, fd);
      var newId := k + 1;
      var p := players[k];
      players[k] := p.(socketFd := fd, id := newId, active := true, writeCount := 0, writeIndex := 0);
      ghost var joined := before[k := Joined(before[k], fd, newId)];
      assert players[..] == joined;
      AddMessageToPlayer(WelcomeMessage(newId), newId);
      ghost var welcomed := players[..];
      assert welcomed == ToPlayer(joined, WelcomeMessage(newId), newId);
      AddMessageToAllExcept(JoinMessage(newId), newId);
      assert players[..] == Broadcast(welcomed, JoinMessage(newId), newId);
    }

    /**
     * `handle_new_connection` when `accept` would return `acceptFd`: the
     * count, the `accept`, `find_available_id` and the search for the
     * first free slot.
     */
    method HandleNewConnection(acceptFd: int)
      requires Valid() && CanConnect(players[..], acceptFd)
      modifies players
      ensures players[..] == Connected(old(players[..]), acceptFd)
      ensures Valid()
    {
      var active := ActiveCount();
      if active >= players.Length {
        return;
      }
      if acceptFd < 0 {
        return;
      }
      var newId := FindAvailableId();
      var i := 0;
      while players[i].active
        invariant 0 <= i <= newId - 1 < players.Length && !players[newId - 1].active
        invariant forall j :: 0 <= j < i ==> players[j].active
        decreases newId - 1 - i
      {
        i := i + 1;
      }
      Join(i, acceptFd);
    }

    /** The loop of `handle_guess` that closes every active player's socket. */
    method CloseAll()
      requires Valid()
      modifies players
      ensures players[..] == EndRound(old(players[..]))
      ensures Valid()
    {
      ghost var before := players[..];
      for i := 0 to players.Length
        invariant forall j :: 0 <= j < i ==> players[j] == if before[j].active then Leave(before[j]) else before[j]
        invariant forall j :: i <= j < players.Length ==> players[j] == before[j]
      {
        if players[i].active {
          players[i] := players[i].(active := false, socketFd := -1);
        }
      }
      assert players[..] == EndRound(before);
    }

    /** `handle_guess`. */
    method HandleGuess(id: int, guess: int, draw: nat)
      requires Valid() && Room(players[..], -1, GuessMessages(guess, target))
      modifies this, players
      ensures (players[..], target) == Guessed(old(players[..]), old(target), id, guess, draw)
      ensures Valid()
    {
      ghost var before := players[..];
      BroadcastRoom(before, GuessMessage(id, guess), GuessMessages(guess, target) - 1);
      AddMessageToAllExcept(GuessMessage(id, guess), -1);
      if guess == target {
        BroadcastRoom(players[..], WinMessage(id), 1);
        AddMessageToAllExcept(WinMessage(id), -1);
        AddMessageToAllExcept(AnswerMessage(guess), -1);
        CloseAll();
        target := NewTarget(draw);
      } else {
        AddMessageToAllExcept(HintMessage(guess, target), -1);
      }
    }

    /** `handle_player_read` when `read` returns `input`. */
    method HandlePlayerRead(id: int, input: Input, draw: nat)
      requires Valid() && InputOk(input) && CanRead(players[..], target, id, input)
      modifies this, players
      ensures (players[..], target) == Read(old(players[..]), old(target), id, input, draw)
      ensures Valid()
    {
      var slot := FindPlayer(id);
      if slot.None? {
        return;
      }
      match input
      case Closed =>
        DisconnectPlayer(id);
      case Failed(eagain) =>
        if !eagain {
          DisconnectPlayer(id);
        }
      case Data(bytes) =>
        var guess := CString.Atoi(CString.CStr(bytes));
        if guess > 0 {
          HandleGuess(id, guess, draw);
        }
    }

    /** `handle_player_write` when `write` returns `written`; the result is the message handed to `write`. */
    method HandlePlayerWrite(id: int, written: int, eagain: bool) returns (sent: Option<string>)
      requires Valid() && CanWrite(players[..], id, written, eagain)
      modifies players
      ensures sent == Sent(old(players[..]), id)
      ensures players[..] == Written(old(players[..]), id, written, eagain)
      ensures Valid()
    {
      var slot := FindPlayer(id);
      if slot.None? {
        return None;
      }
      var k := slot.value;
      if players[k].writeIndex >= players[k].writeCount {
        return None;
      }
      sent := Some(players[k].buffer[players[k].writeIndex]);
      if written < 0 && !eagain {
        DisconnectPlayer(id);
        return;
      }
      if written > 0 {
        players[k] := players[k].(writeIndex := players[k].writeIndex + 1);
        if players[k].writeIndex >= players[k].writeCount {
          players[k] := players[k].(writeCount := 0, writeIndex := 0);
        }
      }
    }
  }
}
