/**
 * core/run_open_ai.py: the checks done before the chat-completion request —
 * the API key, the project root and message file location, and the
 * validation of the decoded message list.
 */
module OpenAiScript {
  import opened Wrappers
  import opened FileSystems

  const SourceDirname := "source"
  const DefaultJson := "default_question.json"

  // ---- API key ----

  /** RuntimeError: the key is unset or empty. */
  datatype KeyError = ApiKeyMissing

  /** require_api_key: the configured key (passed in) is returned as it is unless it is None or empty. */
  function RequireApiKey(key: Option<string>): (r: Result<string, KeyError>)
    ensures r.Ok? <==> key.Some? && key.value != ""
    ensures r.Ok? ==> r.value == key.value
    ensures r.Err? ==> r.error == ApiKeyMissing
  {
    if key.None? || key.value == "" then Err(ApiKeyMissing) else Ok(key.value)
  }

  // ---- locating the message file ----

  /**
   * project_root: the grandparent of the start path, or of the module's own
   * file when no start is given (the parent of `/` being `/`).
   */
  function ProjectRoot(start: Option<Path>, moduleFile: Path): (r: Path)
    ensures var base := if start.Some? then start.value else moduleFile;
            && r <= base
            && (|base| >= 2 ==> |r| == |base| - 2)
            && (|base| < 2 ==> r == [])
  {
    var base := if start.Some? then start.value else moduleFile;
    Parent(Parent(base))
  }

  /** What get_json_path raises. */
  datatype PathError =
    | SourceMissing(path: Path)        // FileNotFoundError
    | SourceNotADirectory(path: Path)  // NotADirectoryError
    | JsonMissing(path: Path)          // FileNotFoundError
    | JsonNotAFile(path: Path)         // IsADirectoryError

  /**
   * get_json_path: `root/source` must exist and be a directory, then
   * `root/source/filename` must exist and be a file, checked in that order.
   */
  function GetJsonPath(t: Tree, moduleFile: Path, filename: string): (r: Result<Path, PathError>)
    ensures var src := ProjectRoot(None, moduleFile) + [SourceDirname];
            var json := Join(src, filename);
            && (r == Err(SourceMissing(src)) <==> src !in t)
            && (r == Err(SourceNotADirectory(src)) <==> IsFile(t, src))
            && (r == Err(JsonMissing(json)) <==> IsDir(t, src) && json !in t)
            && (r == Err(JsonNotAFile(json)) <==> IsDir(t, src) && IsDir(t, json))
            && (r.Ok? <==> IsDir(t, src) && IsFile(t, json))
            && (r.Ok? ==> r.value == json)
  {
    var src := Join(ProjectRoot(None, moduleFile), SourceDirname);
    if src !in t then Err(SourceMissing(src))
    else if !IsDir(t, src) then Err(SourceNotADirectory(src))
    else
      var json := Join(src, filename);
      if json !in t then Err(JsonMissing(json))
      else if !IsFile(t, json) then Err(JsonNotAFile(json))
      else Ok(json)
  }

  /** The default file name is a single path component. */
  lemma DefaultJsonIsOneComponent(src: Path)
    ensures Join(src, DefaultJson) == src + [DefaultJson]
  {
    assert DefaultJson == ['d', 'e', 'f', 'a', 'u', 'l', 't', '_', 'q', 'u', 'e', 's', 't', 'i', 'o', 'n',
                           '.', 'j', 's', 'o', 'n'];
    assert '/' !in DefaultJson;
  }

  /**
   * get_json_path() with its default argument: the default question file
   * directly inside the source directory.
   */
  function GetDefaultJsonPath(t: Tree, moduleFile: Path): (r: Result<Path, PathError>)
    ensures var src := ProjectRoot(None, moduleFile) + [SourceDirname];
            && (r.Ok? <==> IsDir(t, src) && IsFile(t, src + [DefaultJson]))
            && (r.Ok? ==> r.value == src + [DefaultJson])
  {
    DefaultJsonIsOneComponent(ProjectRoot(None, moduleFile) + [SourceDirname]);
    GetJsonPath(t, moduleFile, DefaultJson)
  }

  // ---- validating the messages ----

  /** A decoded JSON value. */
  datatype Json =
    | JNull
    | JBool(b: bool)
    | JNumber(n: int)
    | JString(s: string)
    | JArray(items: seq<Json>)
    | JObject(fields: map<string, Json>)

  datatype Message = Message(role: string, content: string)

  /** What load_messages raises once the text is decoded. */
  datatype LoadError =
    | NotAList                      // TypeError
    | MalformedItem(index: nat)     // TypeError: not a dict with role and content
    | WrongFieldTypes(index: nat)   // TypeError: role or content not a string
    | NoMessages                    // ValueError: the list is empty

  predicate HasRoleAndContent(j: Json) {
    j.JObject? && "role" in j.fields && "content" in j.fields
  }

  predicate IsMessage(j: Json) {
    HasRoleAndContent(j) && j.fields["role"].JString? && j.fields["content"].JString?
  }

  /** The message an item stands for; other keys of the object are dropped. */
  function ToMessage(j: Json): Message
    requires IsMessage(j)
  {
    Message(j.fields["role"].s, j.fields["content"].s)
  }

  /**
   * load_messages after decoding: the top level must be a list; the first
   * item in index order that is not a dict with `role` and `content`, or
   * whose role or content is not a string, is reported by index; an empty
   * list is refused only after the loop.  On success every item becomes one
   * message, in order.
   */
  method LoadMessages(raw: Json) returns (r: Result<seq<Message>, LoadError>)
    ensures r == Err(NotAList) <==> !raw.JArray?
    ensures r.Ok? <==> raw.JArray? && |raw.items| > 0 && forall i | 0 <= i < |raw.items| :: IsMessage(raw.items[i])
    ensures r.Ok? ==>
      && |r.value| == |raw.items|
      && forall i | 0 <= i < |raw.items| :: r.value[i] == ToMessage(raw.items[i])
    ensures r == Err(NoMessages) <==> raw == JArray([])
    ensures r.Err? && r.error.MalformedItem? ==>
      && raw.JArray? && r.error.index < |raw.items|
      && !HasRoleAndContent(raw.items[r.error.index])
      && forall i | 0 <= i < r.error.index :: IsMessage(raw.items[i])
    ensures r.Err? && r.error.WrongFieldTypes? ==>
      && raw.JArray? && r.error.index < |raw.items|
      && HasRoleAndContent(raw.items[r.error.index]) && !IsMessage(raw.items[r.error.index])
      && forall i | 0 <= i < r.error.index :: IsMessage(raw.items[i])
  {
    if !raw.JArray? {
      return Err(NotAList);
    }
    var items := raw.items;
    var msgs: seq<Message> := [];
    for i := 0 to |items|
      invariant |msgs| == i
      invariant forall j | 0 <= j < i :: IsMessage(items[j]) && msgs[j] == ToMessage(items[j])
    {
      var item := items[i];
      if !(item.JObject? && "role" in item.fields && "content" in item.fields) {
        return Err(MalformedItem(i));
      }
      var role := item.fields["role"];
      var content := item.fields["content"];
      if !(role.JString? && content.JString?) {
        return Err(WrongFieldTypes(i));
      }
      msgs := msgs + [Message(role.s, content.s)];
    }
    if msgs == [] {
      return Err(NoMessages);
    }
    return Ok(msgs);
  }
}
