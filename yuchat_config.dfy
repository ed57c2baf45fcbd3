/**
 * The configuration check `send_to_yuchat` makes before any network call.
 * The `yuchat` section must give truthy values for `token`, `workspace_id`
 * and `chat_id`; otherwise the send fails at once and names the missing
 * keys in that order.  `api_url` falls back to the public endpoint only
 * when the key is absent.  The request that would follow is described as a
 * value; it is not sent.
 */
module YuChatConfig {
  import opened Wrappers

  /** A value read from the YAML configuration. */
  datatype Value =
    | Null
    | Bool(b: bool)
    | Int(i: int)
    | Str(s: string)
    | List(items: seq<Value>)
    | Mapping(entries: map<string, Value>)

  /** Python truthiness of a configuration value. */
  predicate Truthy(v: Value) {
    match v
    case Null => false
    case Bool(b) => b
    case Int(i) => i != 0
    case Str(s) => s != []
    case List(items) => items != []
    case Mapping(entries) => entries != map[]
  }

  const RequiredKeys: seq<string> := ["token", "workspace_id", "chat_id"]
  const DefaultApiUrl: string := "https://chat-api.bft.ru/public/v1/chat.message.send"

  /** `section.get(key)` is truthy: the key is there with a truthy value. */
  predicate Provided(section: map<string, Value>, key: string) {
    key in section && Truthy(section[key])
  }

  /** `sub` is `s` with some elements left out, the rest kept in order. */
  predicate IsSubsequence(sub: seq<string>, s: seq<string>)
    decreases |s|
  {
    if sub == [] then true
    else if s == [] then false
    else if sub[0] == s[0] then IsSubsequence(sub[1..], s[1..])
    else IsSubsequence(sub, s[1..])
  }

  /** `[key for key in keys if not section.get(key)]`. */
  function MissingKeys(keys: seq<string>, section: map<string, Value>): (missing: seq<string>)
    ensures forall k :: k in missing <==> k in keys && !Provided(section, k)
    ensures IsSubsequence(missing, keys)
  {
    if keys == [] then []
    else
      var rest := MissingKeys(keys[1..], section);
      if Provided(section, keys[0]) then
        assert rest != [] ==> rest[0] in rest;
        rest
      else
        var missing := [keys[0]] + rest;
        assert missing[1..] == rest;
        missing
  }

  /** Why the send stops before any request is made. */
  datatype SendError =
    | SectionNotMapping                        // `yuchat` holds a value that has no `.get`
    | MissingConfiguration(keys: seq<string>)  // required keys absent or falsy

  /** The request `send_to_yuchat` would post: endpoint, bearer token and
      the JSON body's workspace, chat and markdown text. */
  datatype Request = Request(url: Value, token: Value, workspaceId: Value, chatId: Value, markdown: string)

  /** `config.get('yuchat', {})`: an absent section reads as empty. */
  function YuChatSection(config: map<string, Value>): (r: Option<map<string, Value>>)
    ensures r.None? <==> "yuchat" in config && !config["yuchat"].Mapping?
    ensures "yuchat" !in config ==> r == Some(map[])
    ensures r.Some? && "yuchat" in config ==> r.value == config["yuchat"].entries
  {
    if "yuchat" !in config then Some(map[])
    else match config["yuchat"]
      case Mapping(entries) => Some(entries)
      case _ => None
  }

  /** The checks `send_to_yuchat` makes before posting, and the request it
      then builds. */
  function PrepareSend(message: string, config: map<string, Value>): (r: Result<Request, SendError>)
    ensures YuChatSection(config).None? <==> r == Failure(SectionNotMapping)
    ensures YuChatSection(config).Some? ==>
      var section := YuChatSection(config).value;
      && (r.Success? <==>
            Provided(section, "token") && Provided(section, "workspace_id") && Provided(section, "chat_id"))
      && (r.Failure? ==> r.error == MissingConfiguration(MissingKeys(RequiredKeys, section)) && r.error.keys != [])
      && (r.Success? ==>
            && r.value.token == section["token"]
            && r.value.workspaceId == section["workspace_id"]
            && r.value.chatId == section["chat_id"]
            && r.value.markdown == message
            && ("api_url" in section ==> r.value.url == section["api_url"])
            && ("api_url" !in section ==> r.value.url == Str(DefaultApiUrl)))
  {
    match YuChatSection(config)
    case None => Failure(SectionNotMapping)
    case Some(section) =>
      var missing := MissingKeys(RequiredKeys, section);
      assert RequiredKeys[0] == "token" && RequiredKeys[1] == "workspace_id" && RequiredKeys[2] == "chat_id";
      if missing != [] then
        assert missing[0] in missing;
        Failure(MissingConfiguration(missing))
      else
        assert "token" !in missing && "workspace_id" !in missing && "chat_id" !in missing;
        var url := if "api_url" in section then section["api_url"] else Str(DefaultApiUrl);
        Success(Request(url, section["token"], section["workspace_id"], section["chat_id"], message))
  }

  /** A configuration without `token` fails fast and names exactly `token`. */
  lemma MissingTokenOnly(message: string, workspace: string, chat: string)
    requires workspace != [] && chat != []
    ensures
      var config := map["yuchat" := Mapping(map["workspace_id" := Str(workspace), "chat_id" := Str(chat)])];
      PrepareSend(message, config) == Failure(MissingConfiguration(["token"]))
  {
    var section := map["workspace_id" := Str(workspace), "chat_id" := Str(chat)];
    assert RequiredKeys[1..] == ["workspace_id", "chat_id"];
    assert RequiredKeys[1..][1..] == ["chat_id"];
    assert MissingKeys(["chat_id"], section) == [];
    assert MissingKeys(["workspace_id", "chat_id"], section) == [];
    assert MissingKeys(RequiredKeys, section) == ["token"];
  }
}
