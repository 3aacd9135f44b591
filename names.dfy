/**
 * The fixed texts the uploader sends: the query parameter names, the
 * OAuth signature method and version, and the nonce alphabet.
 */
module Names {
  import opened Strings

  const LowerLetters: Text := "abcdefghijklmnopqrstuvwxyz"
  const UpperLetters: Text := "ABCDEFGHIJKLMNOPQRSTUVWXYZ"
  const Digits: Text := "0123456789"
  const NonceAlphabet: Text := LowerLetters + UpperLetters + Digits

  const NonceLength: nat := 32

  const ConsumerKeyParam: Text := "consumer_key"
  const ConsumerSecretParam: Text := "consumer_secret"
  const OAuthConsumerKeyParam: Text := "oauth_consumer_key"
  const OAuthTimestampParam: Text := "oauth_timestamp"
  const OAuthNonceParam: Text := "oauth_nonce"
  const OAuthSignatureMethodParam: Text := "oauth_signature_method"
  const OAuthVersionParam: Text := "oauth_version"
  const OAuthSignatureParam: Text := "oauth_signature"
  const SignatureMethod: Text := "HMAC-SHA1"
  const Version: Text := "1.0"

  /** The six OAuth parameter names are pairwise different. */
  lemma OAuthNamesDistinct()
    ensures OAuthConsumerKeyParam != OAuthTimestampParam && OAuthConsumerKeyParam != OAuthNonceParam
    ensures OAuthConsumerKeyParam != OAuthSignatureMethodParam && OAuthConsumerKeyParam != OAuthVersionParam
    ensures OAuthConsumerKeyParam != OAuthSignatureParam
    ensures OAuthTimestampParam != OAuthNonceParam && OAuthTimestampParam != OAuthSignatureMethodParam
    ensures OAuthTimestampParam != OAuthVersionParam && OAuthTimestampParam != OAuthSignatureParam
    ensures OAuthNonceParam != OAuthSignatureMethodParam && OAuthNonceParam != OAuthVersionParam
    ensures OAuthNonceParam != OAuthSignatureParam
    ensures OAuthSignatureMethodParam != OAuthVersionParam && OAuthSignatureMethodParam != OAuthSignatureParam
    ensures OAuthVersionParam != OAuthSignatureParam
  {
    assert OAuthConsumerKeyParam[6] == 'c' && OAuthTimestampParam[6] == 't' && OAuthNonceParam[6] == 'n';
    assert OAuthSignatureMethodParam[6] == 's' && OAuthVersionParam[6] == 'v' && OAuthSignatureParam[6] == 's';
    assert |OAuthSignatureMethodParam| != |OAuthSignatureParam|;
  }
}
