/** Display form of long hashes and addresses (packages/helpers/src/shortenHash.ts). */
module Hash {

  /** Hashes of at most ten characters are shown whole; longer ones as their
      first six characters, an ellipsis and their last four characters. */
  function ShortenHash(hash: string): (r: string)
    ensures |hash| <= 10 ==> r == hash
    ensures |hash| > 10 ==> |r| == 13
    ensures |hash| > 10 ==> r[..6] == hash[..6] && r[6..9] == "..." && r[9..] == hash[|hash| - 4..]
  {
    if |hash| <= 10 then hash else hash[..6] + "..." + hash[|hash| - 4..]
  }

  /** Shortening a shortened hash changes nothing. */
  lemma {:induction false} ShortenHashIdempotent(hash: string)
    ensures ShortenHash(ShortenHash(hash)) == ShortenHash(hash)
  {
    var r := ShortenHash(hash);
    if |hash| > 10 {
      assert r == r[..6] + r[6..9] + r[9..];
    }
  }

  /** A shown hash is never longer than thirteen characters; it is shorter
      than the input only for inputs longer than that (inputs of eleven and
      twelve characters come out longer). */
  lemma ShortenHashLength(hash: string)
    ensures |ShortenHash(hash)| <= 13
    ensures |ShortenHash(hash)| < |hash| <==> |hash| > 13
  {
  }
}
