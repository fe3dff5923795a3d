/** Values exchanged between the typing-race client and its session server. */
module Types {

  /** A value that may be absent, such as the id of a socket that has not connected yet. */
  datatype Option<T> = None | Some(value: T)

  /** The phase of the race as the client last heard it from the server. */
  datatype GameStatus = NotStarted | InProgress | Finished

  /** One participant of the room; `score` is computed by the server. */
  datatype Player = Player(id: string, name: string, score: int)

  /** Payload of the `player-score` event. */
  datatype PlayerScore = PlayerScore(id: string, score: int)

  /** What the client emits on its socket: `start-game`, `player-typed(buffer)`, `leave`. */
  datatype Outbound = StartGame | PlayerTyped(buffer: string) | Leave
}
