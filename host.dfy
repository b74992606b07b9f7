/** The host's state the commands read and change: the chat's files and message histories,
    kept by the host's coder object, and the JSON values messages and context records are
    made of. The host's own commands (`/reset`, `/add`, `/ask`, ...) are outside this model:
    `/reset` is given its documented effect, `/add` is recorded as a request. */
module Host {
  import opened Util

  /** A JSON value as `json.load` returns it; numbers are integers here. */
  datatype Json =
    | JNull
    | JBool(b: bool)
    | JNumber(n: int)       // a JSON number without fraction or exponent: a Python `int`
    | JFloat(x: real)       // any other JSON number: a Python `float`
    | JString(s: string)
    | JList(items: seq<Json>)
    | JObject(keys: seq<string>, fields: map<string, Json>)

  /** Python's truth value of a parsed JSON value. */
  predicate Truthy(v: Json) {
    match v
    case JNull => false
    case JBool(b) => b
    case JNumber(n) => n != 0
    case JFloat(x) => x != 0.0
    case JString(s) => s != []
    case JList(items) => items != []
    case JObject(_, fields) => fields != map[]
  }

  /** Python's `key in value` for a parsed JSON value; `None` where it raises a TypeError. */
  function PyIn(key: string, value: Json): Option<bool> {
    match value
    case JObject(_, fields) => Some(key in fields)
    case JList(items) => Some(JString(key) in items)
    case JString(s) => Some(Contains(s, key))
    case _ => None
  }

  /** What `for x in value` yields for a parsed JSON value: the items of a list, the
      characters of a string, the keys of an object; `None` where Python raises a TypeError. */
  function Iterate(value: Json): (r: Option<seq<Json>>)
    ensures r.Some? <==> value.JList? || value.JString? || value.JObject?
    ensures r.Some? && value.JString? ==> |r.value| == |value.s|
  {
    match value
    case JList(items) => Some(items)
    case JString(s) => Some(seq(|s|, k requires 0 <= k < |s| => JString([s[k]])))
    case JObject(keys, _) => Some(seq(|keys|, k requires 0 <= k < |keys| => JString(keys[k])))
    case _ => None
  }

  /** `dict(role=role, content=content)`. */
  function ChatMessage(role: string, content: string): (m: Json)
    ensures m.JObject? && m.keys == ["role", "content"]
    ensures "role" in m.fields && "content" in m.fields
    ensures m.fields["role"] == JString(role) && m.fields["content"] == JString(content)
  {
    JObject(["role", "content"], map["role" := JString(role), "content" := JString(content)])
  }

  class Coder {
    /** `coder.main_model.name`. */
    var modelName: string
    /** `coder.get_inchat_relative_files()`. */
    var chatFiles: seq<string>
    var doneMessages: seq<Json>
    var curMessages: seq<Json>
    /** The argument strings handed to the host's `/add`, oldest first. */
    var addRequests: seq<string>

    constructor(modelName: string, chatFiles: seq<string>, doneMessages: seq<Json>, curMessages: seq<Json>)
      ensures this.modelName == modelName && this.chatFiles == chatFiles
      ensures this.doneMessages == doneMessages && this.curMessages == curMessages
      ensures addRequests == []
    {
      this.modelName := modelName;
      this.chatFiles := chatFiles;
      this.doneMessages := doneMessages;
      this.curMessages := curMessages;
      this.addRequests := [];
    }

    /** The host's `/reset`: drops every file from the chat and clears both histories. */
    method Reset()
      modifies this
      ensures chatFiles == [] && doneMessages == [] && curMessages == []
      ensures modelName == old(modelName) && addRequests == old(addRequests)
    {
      chatFiles, doneMessages, curMessages := [], [], [];
    }

    /** The host's `/add <args>`, recorded. */
    method RequestAdd(args: string)
      modifies this
      ensures addRequests == old(addRequests) + [args]
      ensures modelName == old(modelName) && chatFiles == old(chatFiles)
      ensures doneMessages == old(doneMessages) && curMessages == old(curMessages)
    {
      addRequests := addRequests + [args];
    }
  }
}
