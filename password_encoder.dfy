/** The password encoder the services are given. Its hashing is not
    modelled: an encoder is any pair of functions, and a sound one accepts
    every raw password against its own encoding. */
module PasswordEncoder {
  import opened Common

  datatype Encoder = Encoder(encode: string -> string, matches: (string, string) -> bool)

  ghost predicate Sound(enc: Encoder)
  {
    forall p :: enc.matches(p, enc.encode(p))
  }

  /** Every encoding is a non-blank string, as a bcrypt hash is. */
  ghost predicate NonBlankHashes(enc: Encoder)
  {
    forall p :: NotBlank(enc.encode(p))
  }
}
