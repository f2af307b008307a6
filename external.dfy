/** The collaborators both services call into and that are not modelled
    themselves: bcrypt, and the replies of the Redis and Postgres servers. */
module External {

  /**
    A bcrypt hash as stored in the users table. `Hashed(p)` stands for a hash
    that `bcrypt.GenerateFromPassword` produced from `p`; `NoHash` is the empty
    column of a zero-valued row, which no password matches.
  */
  datatype PasswordHash = Hashed(of: string) | NoHash

  /** `bcrypt.CompareHashAndPassword(hash, password)` returns no error. */
  predicate Matches(hash: PasswordHash, password: string) {
    hash.Hashed? && hash.of == password
  }

  /** What a server answered to one write: it took it, or it could not be reached. */
  datatype Reply = Done | Unavailable
}
