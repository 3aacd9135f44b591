/** `GenerateNonce`: 32 characters drawn from a 62-character alphabet. */
module Nonce {
  import opened Strings
  import opened UrlEncoding
  import opened Names

  /**
   * The draws of `random.Next(0, NonceAlphabet.Length - 1)`, one per
   * character: the upper bound is exclusive, so each lies in [0, 61).
   */
  predicate ValidDraws(draws: seq<nat>)
  {
    |draws| == NonceLength && forall i :: 0 <= i < |draws| ==> draws[i] < |NonceAlphabet| - 1
  }

  lemma LettersFacts()
    ensures |LowerLetters| == 26 && |UpperLetters| == 26
    ensures forall k :: 0 <= k < 26 ==> 'a' <= LowerLetters[k] <= 'z'
    ensures forall k :: 0 <= k < 26 ==> 'A' <= UpperLetters[k] <= 'Z'
  {
  }

  lemma DigitsFacts()
    ensures |Digits| == 10 && Digits[9] == '9'
    ensures forall k :: 0 <= k < 9 ==> '0' <= Digits[k] < '9'
  {
  }

  /** The alphabet has 62 characters, `9` last; the 61 before it are letters and the digits 0 to 8. */
  lemma NonceAlphabetFacts()
    ensures |NonceAlphabet| == 62 && NonceAlphabet[61] == '9'
    ensures forall k :: 0 <= k < 61 ==> NonceAlphabet[k] != '9' && IsUrlSafe(NonceAlphabet[k])
  {
    LettersFacts();
    DigitsFacts();
    forall k | 0 <= k < 61 ensures NonceAlphabet[k] != '9' && IsUrlSafe(NonceAlphabet[k]) {
      if k < 26 {
        assert NonceAlphabet[k] == LowerLetters[k];
      } else if k < 52 {
        assert NonceAlphabet[k] == UpperLetters[k - 26];
      } else {
        assert NonceAlphabet[k] == Digits[k - 52];
      }
    }
  }

  /** The nonce that a sequence of draws produces. */
  function NonceOf(draws: seq<nat>): (nonce: Text)
    requires ValidDraws(draws)
    ensures |nonce| == NonceLength
    ensures forall i :: 0 <= i < |nonce| ==> nonce[i] == NonceAlphabet[draws[i]]
    ensures forall i :: 0 <= i < |nonce| ==> nonce[i] in NonceAlphabet[..61]
    ensures '9' !in nonce
    ensures AllUrlSafe(nonce)
  {
    NonceAlphabetFacts();
    var nonce := seq(NonceLength, i requires 0 <= i < NonceLength => NonceAlphabet[draws[i]]);
    assert forall i :: 0 <= i < |nonce| ==> nonce[i] == NonceAlphabet[..61][draws[i]];
    nonce
  }

  /** `GenerateNonce`: 32 characters appended one per draw. */
  method GenerateNonce(draws: seq<nat>) returns (nonce: Text)
    requires ValidDraws(draws)
    ensures |nonce| == NonceLength
    ensures forall i :: 0 <= i < NonceLength ==> nonce[i] == NonceAlphabet[draws[i]]
    ensures nonce == NonceOf(draws)
  {
    var sb: Text := [];
    for index := 0 to NonceLength
      invariant |sb| == index
      invariant forall i :: 0 <= i < index ==> sb[i] == NonceAlphabet[draws[i]]
    {
      sb := sb + [NonceAlphabet[draws[index]]];
    }
    nonce := sb;
  }
}
