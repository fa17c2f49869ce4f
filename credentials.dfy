/** Validation of the OAuth client-secret file of an "installed" application:
    `{ "installed": { "client_id", "client_secret", "redirect_uris" } }`. */
module Credentials {
  import opened Wrappers
  import opened Json

  /** What the credentials file at the fixed per-user path holds: nothing,
      text that `JSON.parse` rejects, or a parsed document. */
  datatype CredentialsFile = Missing | Unparsable | Parsed(doc: JsonValue)

  /** The four answers of the check; only `Valid` is a success. */
  datatype CheckOutcome = NotFound | Invalid | MissingFields | Valid

  /** The fields the check requires, read from `installed`. */
  const RequiredFields: seq<string> := ["client_secret", "client_id", "redirect_uris"]

  /** `credentials.installed` and the three required fields inside it are all
      truthy. Reading a property of `null` throws, so `doc` is not `null`. */
  predicate HasRequiredFields(doc: JsonValue)
    requires doc != JNull
  {
    var installed := Get(doc, "installed");
    && Truthy(installed)
    && Truthy(Get(installed.value, "client_secret"))
    && Truthy(Get(installed.value, "client_id"))
    && Truthy(Get(installed.value, "redirect_uris"))
  }

  /** `checkCredentials`: absent file, unparsable file (a document that is
      `null` makes the property read throw inside the same `try`, so it is
      reported the same way), missing fields, or success. */
  function CheckCredentials(file: CredentialsFile): (r: CheckOutcome)
    ensures r == NotFound <==> file == Missing
    ensures r == Invalid <==> file == Unparsable || file == Parsed(JNull)
    ensures r == Valid ==> file.Parsed? && file.doc.JObject?
  {
    match file
    case Missing => NotFound
    case Unparsable => Invalid
    case Parsed(doc) =>
      if doc == JNull then Invalid
      else if HasRequiredFields(doc) then Valid
      else MissingFields
  }

  /** Success means exactly: an `installed` object whose three required
      fields are present and truthy. */
  lemma ValidIff(file: CredentialsFile)
    ensures CheckCredentials(file) == Valid <==>
      && file.Parsed? && file.doc.JObject?
      && "installed" in file.doc.fields
      && file.doc.fields["installed"].JObject?
      && forall f :: f in RequiredFields ==>
           f in file.doc.fields["installed"].fields
           && Truthy(Some(file.doc.fields["installed"].fields[f]))
  {
    if CheckCredentials(file) == Valid {
      var installed := file.doc.fields["installed"];
      assert Truthy(Get(installed, "client_id"));
    }
  }

  /** The document with one field of `installed` removed. */
  function WithoutField(doc: JsonValue, f: string): JsonValue
    requires doc.JObject? && "installed" in doc.fields && doc.fields["installed"].JObject?
  {
    JObject(doc.fields["installed" := JObject(doc.fields["installed"].fields - {f})])
  }

  /** Removing any one required field from a valid file makes the check
      report missing fields; removing `installed` itself does too. */
  lemma RemovingAFieldFails(doc: JsonValue, f: string)
    requires CheckCredentials(Parsed(doc)) == Valid
    requires f in RequiredFields
    ensures doc.JObject? && "installed" in doc.fields && doc.fields["installed"].JObject?
    ensures CheckCredentials(Parsed(WithoutField(doc, f))) == MissingFields
    ensures CheckCredentials(Parsed(JObject(doc.fields - {"installed"}))) == MissingFields
  {
    ValidIff(Parsed(doc));
  }

  /** A file in the documented shape, with string id and secret and a
      non-empty list of redirect URIs, passes the check. */
  lemma WellFormedFileIsValid(id: string, secret: string, uris: seq<JsonValue>)
    requires id != "" && secret != "" && |uris| > 0
    ensures CheckCredentials(Parsed(JObject(map["installed" := JObject(map[
      "client_id" := JString(id), "client_secret" := JString(secret), "redirect_uris" := JArray(uris)])]))) == Valid
  {
  }

  /** An empty `redirect_uris` list is accepted too, since an array is truthy
      in JavaScript whatever its length. */
  lemma EmptyRedirectListAccepted(id: string, secret: string)
    requires id != "" && secret != ""
    ensures CheckCredentials(Parsed(JObject(map["installed" := JObject(map[
      "client_id" := JString(id), "client_secret" := JString(secret), "redirect_uris" := JArray([])])]))) == Valid
  {
  }
}
