/** What all the drivers share with the game. */
module DoomNet {
  const MAXNETNODES := 16
}
