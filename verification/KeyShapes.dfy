/** The keys of the assignment scanner overlap no copies of themselves, and are in lower case. */
module KeyShapes {
  import opened Text

  const TOKEN_KEYS: seq<string> := ["token", "client_token", "access_token", "refresh_token", "id_token"]

  const CREDENTIAL_KEYS: seq<string> :=
    ["password", "passwd", "api_secret", "client_secret", "webhook_secret", "private_key"]

  const STORE_KEYS: seq<string> :=
    ["secret_access_key", "aws_secret_access_key", "database_url", "db_url", "connection_string"]

  const API_KEYS: seq<string> :=
    ["api_key", "apikey", "gemini_api_key", "antigravity_api_key", "google_api_key", "gcp_api_key"]

  predicate AllBorderless(words: seq<string>) { forall i :: 0 <= i < |words| ==> Borderless(words[i]) }

  predicate AllLower(words: seq<string>) { forall i :: 0 <= i < |words| ==> NoUpper(words[i]) }

  lemma LowerKeys()
    ensures AllLower(TOKEN_KEYS) && AllLower(CREDENTIAL_KEYS) && AllLower(STORE_KEYS) && AllLower(API_KEYS)
  {
    LowerTokenKeys();
    LowerCredentialKeys();
    LowerStoreKeys();
    LowerApiKeys();
  }

  lemma LowerTokenKeys()
    ensures AllLower(TOKEN_KEYS)
  {}

  lemma LowerCredentialKeys()
    ensures AllLower(CREDENTIAL_KEYS)
  {}

  lemma LowerStoreKeys()
    ensures AllLower(STORE_KEYS)
  {}

  lemma LowerApiKeys()
    ensures AllLower(API_KEYS)
  {}

  lemma TokenKeys()
    ensures AllBorderless(TOKEN_KEYS)
  {
    assert Borderless("token") && Borderless("client_token") && Borderless("access_token");
    assert Borderless("refresh_token") && Borderless("id_token");
  }

  lemma CredentialKeys()
    ensures AllBorderless(CREDENTIAL_KEYS)
  {
    assert Borderless("password") && Borderless("passwd") && Borderless("api_secret");
    assert Borderless("client_secret") && Borderless("webhook_secret") && Borderless("private_key");
  }

  lemma StoreKeys()
    ensures AllBorderless(STORE_KEYS)
  {
    assert Borderless("secret_access_key") && Borderless("aws_secret_access_key");
    assert Borderless("database_url") && Borderless("db_url") && Borderless("connection_string");
  }

  lemma ApiKeys()
    ensures AllBorderless(API_KEYS)
  {
    assert Borderless("api_key") && Borderless("apikey") && Borderless("gemini_api_key");
    assert Borderless("antigravity_api_key") && Borderless("google_api_key") && Borderless("gcp_api_key");
  }
}
