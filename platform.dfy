/**
 * Library operations the pattern codec calls but which are not part of this
 * model. Each is an uninterpreted function value, so every property proved
 * about the codec holds whatever these functions do (unless a lemma names an
 * assumption about them, such as TextureCodecRoundTrips).
 */
module Platform {
  import opened Wrappers

  /** A decoded image held in a remix's texture cache. */
  datatype Texture = Texture(width: nat, height: nat, pixels: seq<int>)

  /**
   * numberText: the decimal text Jackson's asText() gives for a JSON number.
   * encodeTexture: Remix.writeTexture followed by Base64 encoding, as UTF-8 text.
   * decodeTexture: Base64 decoding followed by Texture(Pixmap(bytes)); None
   *   stands for any exception thrown by either step.
   */
  datatype Libs = Libs(
    numberText: real -> string,
    encodeTexture: Texture -> string,
    decodeTexture: string -> Option<Texture>)

  /** The image codec reads back what it writes. */
  ghost predicate TextureCodecRoundTrips(libs: Libs)
  {
    forall t: Texture :: libs.decodeTexture(libs.encodeTexture(t)) == Some(t)
  }
}
