/** The bot rows that both bot models work on. */
module BotRows {
  type Id = string

  datatype Bot = Bot(owner: Id, deleteAt: int)
}
