/** The `GamePlayer` component: the client's room state and its event handlers. */
module Game {
  import opened Types
  import Roster
  import Standings

  /**
   * The part of the rendered page that depends on the room's state: the
   * waiting panel with or without the Start control, the typing panel with the
   * text area enabled or not, and the finished panel with or without the Start
   * control and the restart hint.
   */
  datatype Screen =
    | Waiting(startShown: bool)
    | Typing(inputEnabled: bool)
    | Done(startShown: bool, restartHint: bool)
  {
    /** A Start button is on the page. */
    predicate StartShown()
    {
      (Waiting? || Done?) && startShown
    }
  }

  /**
   * The state cells of the component, the transport it talks to, and the
   * events it has emitted so far. `hasSocket` says whether the socket instance
   * exists; `localId` is that socket's id, absent until it connects.
   */
  class Room {
    var players: seq<Player>
    var status: GameStatus
    var paragraph: string
    var host: string
    var input: string
    var localId: Option<string>
    var hasSocket: bool
    var outbox: seq<Outbound>

    /**
     * A socket id exists only on a socket, and the typing buffer is empty
     * whenever no race is running.
     */
    ghost predicate Valid()
      reads this
    {
      (localId.Some? ==> hasSocket) &&
      (status != InProgress ==> input == "")
    }

    /** The first render: every cell at its initial value, nothing emitted yet. */
    constructor (hasSocket: bool, localId: Option<string>)
      requires localId.Some? ==> hasSocket
      ensures Valid()
      ensures players == [] && status == NotStarted && paragraph == "" && host == "" && input == ""
      ensures this.hasSocket == hasSocket && this.localId == localId && outbox == []
    {
      players, status, paragraph, host, input := [], NotStarted, "", "", "";
      this.hasSocket, this.localId, outbox := hasSocket, localId, [];
    }

    /** `host === ioInstance?.id`: the local socket's id is the host id. */
    predicate IsHost()
      reads this
    {
      localId == Some(host)
    }

    /** The text area accepts keystrokes: it is not `disabled`. */
    predicate InputEnabled()
      reads this
    {
      status == InProgress && hasSocket
    }

    /** What the page shows, branch by branch of the rendered markup. */
    function View(): (s: Screen)
      reads this
      ensures s.StartShown() <==> localId == Some(host) && (status == NotStarted || status == Finished)
      ensures s.Typing? <==> status == InProgress
      ensures s.Typing? ==> (s.inputEnabled <==> hasSocket)
      ensures s.Done? ==> (s.restartHint <==> localId == Some(host))
      ensures Valid() && s.StartShown() ==> hasSocket
    {
      match status
      case NotStarted => Waiting(IsHost())
      case InProgress => Typing(InputEnabled())
      case Finished => Done(IsHost(), IsHost())
    }

    /** `players`: the snapshot replaces the roster, whatever the phase. */
    method OnPlayers(list: seq<Player>)
      requires Valid()
      modifies this`players
      ensures Valid()
      ensures players == list
    {
      players := list;
    }

    /** `player-joined`: the player is appended, with no check for its id. */
    method OnPlayerJoined(p: Player)
      requires Valid()
      modifies this`players
      ensures Valid()
      ensures players == old(players) + [p]
      ensures Roster.CountId(players, p.id) == Roster.CountId(old(players), p.id) + 1
    {
      Roster.JoinedKeepsDuplicates(players, p);
      players := Roster.Joined(players, p);
    }

    /** `player-left`: every entry with the id is dropped, the rest keep their order. */
    method OnPlayerLeft(id: string)
      requires Valid()
      modifies this`players
      ensures Valid()
      ensures players == Roster.Without(old(players), id)
      ensures forall q :: q in players <==> q in old(players) && q.id != id
    {
      players := Roster.Without(players, id);
    }

    /** `player-score`: every entry with the id takes the new score; nothing else moves. */
    method OnPlayerScore(u: PlayerScore)
      requires Valid()
      modifies this`players
      ensures Valid()
      ensures players == Roster.Rescored(old(players), u)
      ensures |players| == |old(players)|
      ensures forall i :: 0 <= i < |players| ==>
        players[i] == if old(players)[i].id == u.id then old(players)[i].(score := u.score) else old(players)[i]
    {
      players := Roster.Rescored(players, u);
    }

    /** `game-started`: the paragraph is set and the race runs, from any phase; the buffer is kept. */
    method OnGameStarted(text: string)
      requires Valid()
      modifies this`paragraph, this`status
      ensures Valid()
      ensures paragraph == text && status == InProgress
      ensures old(status) != InProgress ==> input == ""
    {
      paragraph := text;
      status := InProgress;
    }

    /**
     * `setInputParagraph(v)` together with the effect that depends on the
     * buffer: when the value really changes, the effect emits `player-typed`
     * with the whole buffer, but only on a socket and during a race. The buffer
     * is set only by a keystroke during a race and cleared by `game-finished`.
     */
    method SetInput(v: string)
      requires localId.Some? ==> hasSocket
      requires v == "" || status == InProgress
      modifies this`input, this`outbox
      ensures Valid()
      ensures input == v
      ensures outbox == if v != old(input) && hasSocket && status == InProgress
                        then old(outbox) + [PlayerTyped(v)] else old(outbox)
    {
      var changed := v != input;
      input := v;
      if changed && hasSocket && status == InProgress {
        outbox := outbox + [PlayerTyped(v)];
      }
    }

    /**
     * `game-finished`: the race is over and the buffer is cleared; the paragraph
     * stays. The effect sees the finished phase, so nothing is emitted.
     */
    method OnGameFinished()
      requires Valid()
      modifies this`status, this`input, this`outbox
      ensures Valid()
      ensures status == Finished && input == ""
      ensures outbox == old(outbox)
    {
      status := Finished;
      SetInput("");
    }

    /** `new-host`: the host id is overwritten. */
    method OnNewHost(id: string)
      requires Valid()
      modifies this`host
      ensures Valid()
      ensures host == id
    {
      host := id;
    }

    /** `error`: the message goes to the notification sink; the room is untouched. */
    method OnError(message: string) returns (notice: string)
      requires Valid()
      ensures notice == message
    {
      notice := message;
    }

    /**
     * A keystroke in the text area: accepted only while the area is enabled,
     * and then passed on to the server if it changed the buffer.
     */
    method LocalType(buffer: string)
      requires Valid()
      modifies this`input, this`outbox
      ensures Valid()
      ensures input == if InputEnabled() then buffer else old(input)
      ensures outbox == if InputEnabled() && buffer != old(input)
                        then old(outbox) + [PlayerTyped(buffer)] else old(outbox)
    {
      if InputEnabled() {
        SetInput(buffer);
      }
    }

    /** `startGame`: asks the server to start; the phase waits for `game-started`. */
    method StartGame()
      requires Valid()
      modifies this`outbox
      ensures Valid()
      ensures outbox == if hasSocket then old(outbox) + [Outbound.StartGame] else old(outbox)
    {
      if hasSocket {
        outbox := outbox + [Outbound.StartGame];
      }
    }

    /** `window.onbeforeunload`: tells the server the player leaves. */
    method Unload()
      requires Valid()
      modifies this`outbox
      ensures Valid()
      ensures outbox == if hasSocket then old(outbox) + [Leave] else old(outbox)
    {
      if hasSocket {
        outbox := outbox + [Leave];
      }
    }

    /**
     * The leaderboard of a render. `players.sort` reorders the state array
     * itself, so the stored roster is left in leaderboard order.
     */
    method Render() returns (board: seq<Standings.Entry>)
      requires Valid()
      modifies this`players
      ensures Valid()
      ensures players == Standings.Sort(old(players))
      ensures board == Standings.Leaderboard(old(players))
      ensures Standings.Listed(board) == players
    {
      var sorted := Standings.Sort(players);
      board := Standings.Leaderboard(players);
      players := sorted;
    }
  }

  /**
   * A race seen from the host's client, using only the handlers' contracts:
   * the Start request changes no phase, typing is forwarded during the race
   * and ignored after it.
   */
  method HostRace()
  {
    var room := new Room(true, Some("a"));
    room.OnPlayers([Player("a", "Alice", 0)]);
    room.OnPlayerJoined(Player("b", "Bob", 0));
    room.OnNewHost("a");
    assert room.View().StartShown();
    room.StartGame();
    assert room.status == NotStarted && room.outbox == [Outbound.StartGame];
    room.OnGameStarted("the quick brown fox");
    assert room.input == "" && room.paragraph == "the quick brown fox";
    room.LocalType("the");
    assert room.outbox == [Outbound.StartGame, PlayerTyped("the")];
    room.OnPlayerScore(PlayerScore("a", 40));
    assert room.players[0].score == 40 && room.players[1].score == 0;
    room.OnGameFinished();
    room.LocalType("x");
    assert room.input == "" && room.outbox == [Outbound.StartGame, PlayerTyped("the")];
    assert room.paragraph == "the quick brown fox";
    room.OnNewHost("b");
    assert !room.View().StartShown();
  }
}
