/** The remote commands that CommandHandler parses and OtaAgent executes. */
module Commands {
  import opened Json

  datatype CommandType = DOOR_LOCK | DOOR_UNLOCK | ENGINE_START | HORN_LIGHT | OTA_TRIGGER | UNKNOWN

  datatype Command = Command(kind: CommandType, correlationId: string, payload: Json)
}
