/** The process-wide settings `setup_email` copies from the application's
    configuration into `EmailSender`'s class attributes; read-only afterwards. */
module Settings {

  /** One entry of the configured relay list: `host`, `user`, `pass`. */
  datatype RelayServer = RelayServer(host: string, user: string, password: string)

  /** `EmailSender.charset`, `EmailSender.sender`, `EmailSender.servers`. */
  datatype Config = Config(charset: string, sender: string, servers: seq<RelayServer>)
}
