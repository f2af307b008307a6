/** The token settings of `config.Config`: a secret and a lifetime per token class. */
module Settings {
  import opened Jwt

  datatype Config = Config(accessSecret: string, accessTtl: Duration, refreshSecret: string, refreshTtl: Duration)
}
