/** The message type the client, the gateway and the provider exchange. */
module Chat {
  import opened Json

  /** Extra fields are flattened into the message by serde. */
  datatype ChatMessage = ChatMessage(role: string, content: string, extra: seq<Entry>)
}
