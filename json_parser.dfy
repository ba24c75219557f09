/**
 * Top-level field extraction from a token-endpoint response
 * (JsonParser::ExtractField<T> and its three uses). The text is given already
 * parsed: None stands for text that nlohmann::json::parse rejects.
 */
module JsonParser {
  import opened Wrappers
  import opened Json

  /**
   * ExtractField<T>: the value of a top-level member converted to T. Any
   * exception (parse error, wrong type) becomes None.
   */
  function ExtractField<T>(parsed: Option<Json>, fieldName: string, get: Json -> Option<T>): (r: Option<T>)
    ensures r.Some? <==> parsed.Some? && Contains(parsed.value, fieldName) && get(Member(parsed.value, fieldName)).Some?
    ensures r.Some? ==> r == get(parsed.value.fields[fieldName])
  {
    match parsed
    case None => None
    case Some(json) => if Contains(json, fieldName) then get(json.fields[fieldName]) else None
  }

  /** The "access_token" member, when it is a string: that string. */
  function ExtractAccessToken(parsed: Option<Json>): (r: Option<string>)
    ensures r.Some? <==> parsed.Some? && Contains(parsed.value, "access_token")
                         && parsed.value.fields["access_token"].JString?
    ensures r.Some? ==> r.value == parsed.value.fields["access_token"].s
  {
    ExtractField(parsed, "access_token", AsString)
  }

  /** The "token_type" member, when it is a string: that string. */
  function ExtractTokenType(parsed: Option<Json>): (r: Option<string>)
    ensures r.Some? <==> parsed.Some? && Contains(parsed.value, "token_type")
                         && parsed.value.fields["token_type"].JString?
    ensures r.Some? ==> r.value == parsed.value.fields["token_type"].s
  {
    ExtractField(parsed, "token_type", AsString)
  }

  /**
   * The "expires_in" member as a std::uint32_t: present whenever the member is
   * a number or a boolean, an integer in range kept as it is, anything else
   * (a string, null, an array, an object) refused.
   */
  function ExtractExpiresIn(parsed: Option<Json>): (r: Option<nat>)
    ensures r.Some? <==> parsed.Some? && Contains(parsed.value, "expires_in")
                         && (parsed.value.fields["expires_in"].JInt?
                             || parsed.value.fields["expires_in"].JFloat?
                             || parsed.value.fields["expires_in"].JBool?)
    ensures r.Some? ==> r.value < TwoTo32
    ensures parsed.Some? && Contains(parsed.value, "expires_in") && parsed.value.fields["expires_in"].JInt?
            && 0 <= parsed.value.fields["expires_in"].i < TwoTo32
            ==> r == Some(parsed.value.fields["expires_in"].i)
  {
    ExtractField(parsed, "expires_in", AsUint32)
  }

  /** A member stored at the top level is found again, converted. */
  lemma ExtractStoredField<T>(fields: map<string, Json>, key: string, v: Json, get: Json -> Option<T>)
    ensures ExtractField(Some(JObject(fields[key := v])), key, get) == get(v)
  {
  }

  /**
   * Only the top level is searched: a key that appears solely inside a nested
   * object, or a document that is not an object, gives None.
   */
  lemma NestedKeyNotFound<T>(json: Json, key: string, get: Json -> Option<T>)
    requires !Contains(json, key)
    ensures ExtractField(Some(json), key, get) == None
  {
  }

  /** The fixtures of the parser's unit tests. */
  function ValidAuthResponse(): Json {
    JObject(map["access_token" := JString("def1234567890abcdef"),
                "expires_in" := JInt(3600),
                "token_type" := JString("bearer")])
  }

  function WrongTypesResponse(): Json {
    JObject(map["access_token" := JInt(12345), "expires_in" := JString("not_a_number")])
  }

  lemma ParserExamples()
    ensures ExtractAccessToken(Some(ValidAuthResponse())) == Some("def1234567890abcdef")
    ensures ExtractExpiresIn(Some(ValidAuthResponse())) == Some(3600)
    ensures ExtractTokenType(Some(ValidAuthResponse())) == Some("bearer")
    ensures ExtractAccessToken(Some(JObject(map[]))) == None
    ensures ExtractTokenType(Some(JObject(map[]))) == None
    ensures ExtractExpiresIn(Some(JObject(map[]))) == None
    ensures ExtractAccessToken(None) == None
    ensures ExtractAccessToken(Some(WrongTypesResponse())) == None
    ensures ExtractExpiresIn(Some(WrongTypesResponse())) == None
    ensures ExtractTokenType(Some(JObject(map["access_token" := JString("123")]))) == None
    ensures ExtractField(Some(JObject(map["is_active" := JBool(true)])), "is_active", AsBool) == Some(true)
    ensures ExtractField(Some(JObject(map["data" := JObject(map["id" := JInt(1)])])), "id", AsInt64) == None
  {
  }
}
