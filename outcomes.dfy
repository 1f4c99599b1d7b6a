/** Option and Result values, and the rejections the game engine reports. */
module Outcomes {

  datatype Option<+T> = None | Some(value: T)

  /** The distinct rejections of the game engine, one per error message of the service. */
  datatype GameError =
    | RoomNotFound          // "Room not found"
    | GameAlreadyStarted    // "Game has already started" / "Game already started"
    | RoomFull              // "Room is full (max 6 players)"
    | WrongPlayerCount      // "Game requires exactly 6 players"
    | NotPlaying            // "Game is not currently playing"
    | NotSeeker             // "Only the current seeker can make accusations"
    | RepeatTarget          // "Cannot accuse the same player consecutively"
    | AccusedNotFound       // "Accused player not found"
    | AlreadyRevealed       // "Cannot accuse a player whose role has already been revealed"
    | NoDares               // "No dares available"
    | InvalidPlayerCount    // "Invalid player count" (reset)

  datatype Result<+T> = Ok(value: T) | Err(error: GameError)
}
