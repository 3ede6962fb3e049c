/** The typed messages of the MMO game and the values they carry. */
module Protocol {
  import opened Basics
  import opened Bytes

  /** The value `ServerInterface::nIDCounter` starts from. */
  const FIRST_ID: Uint32 := 10000

  /** What `sPlayerDescription` holds after its first field: 52 of its 56 bytes. */
  const CARRIED_SIZE := 52

  type Carried = s: seq<Byte> | |s| == CARRIED_SIZE witness ToBytes(0, CARRIED_SIZE)

  /** `sPlayerDescription`: the field the protocol looks at, and everything it only carries. */
  datatype Desc = Desc(uniqueId: Uint32, body: Carried)

  /** The rest of its default values; nothing here depends on what they are. */
  const DEFAULT_CARRIED: Carried := ToBytes(0, CARRIED_SIZE)

  /** What a default-constructed `sPlayerDescription` holds. */
  const DEFAULT_DESC := Desc(0, DEFAULT_CARRIED)

  /** Messages a server connection posts to its client. */
  datatype ServerMsg =
    | Accepted
    | AssignId(id: Uint32)
    | AddPlayer(desc: Desc)
    | RemovePlayer(id: Uint32)
    | UpdatePlayer(desc: Desc)

  /** Messages a client connection posts to the server. */
  datatype ClientMsg =
    | Register(desc: Desc)
    | Unregister
    | Update(desc: Desc)
}
