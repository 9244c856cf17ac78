/** The response normaliser: which part of a parsed reply becomes the text the
    assistant message shows. The two copies of the chat logic differ only in
    whether a `summary` field is consulted first. */
module Normalizer {

  import opened Wrappers
  import opened Json

  /** The outcome of evaluating the selection expression: it throws when the
      payload is `null`, otherwise it yields the value to display. */
  datatype Pick = Thrown | Picked(v: Value)

  /** The fields consulted by the component, in precedence order. */
  const InlineKeys: seq<string> := ["summary", "answer", "response", "message"]

  /** The fields consulted by the hook, in precedence order. */
  const HookKeys: seq<string> := ["answer", "response", "message"]

  /** The position of the first key whose field is truthy, if any. */
  function FirstTruthy(data: Value, keys: seq<string>): (r: Option<nat>)
    ensures r.Some? ==> r.value < |keys| && Present(Member(data, keys[r.value]))
    ensures r.Some? ==> forall j :: 0 <= j < r.value ==> !Present(Member(data, keys[j]))
    ensures r.None? ==> forall j :: 0 <= j < |keys| ==> !Present(Member(data, keys[j]))
  {
    if keys == [] then None
    else if Present(Member(data, keys[0])) then Some(0)
    else
      match FirstTruthy(data, keys[1..])
      case None => None
      case Some(i) => Some(i + 1)
  }

  /** The reference precedence rule: the field of the first key that is truthy,
      else the serialisation of the whole payload; a `null` payload throws. */
  function Precedence(data: Value, keys: seq<string>, stringify: Value -> string): Pick
  {
    if data.JNull? then Thrown
    else
      match FirstTruthy(data, keys)
      case Some(i) => Picked(Member(data, keys[i]).value)
      case None => Picked(JString(stringify(data)))
  }

  /** The component's if/else chain: `summary`, else `answer || response ||
      message` when that is truthy, else `JSON.stringify(data)`. */
  function InlineDisplay(data: Value, stringify: Value -> string): (r: Pick)
    ensures r == Precedence(data, InlineKeys, stringify)
  {
    if data.JNull? then Thrown
    else
      assert InlineKeys[0] == "summary" && InlineKeys[1] == "answer";
      assert InlineKeys[2] == "response" && InlineKeys[3] == "message";
      var summary := Member(data, "summary");
      var chosen := Or(Or(Member(data, "answer"), Member(data, "response")), Member(data, "message"));
      if Present(summary) then Picked(summary.value)
      else if Present(chosen) then Picked(chosen.value)
      else Picked(JString(stringify(data)))
  }

  /** The hook's single expression
      `data.answer || data.response || data.message || JSON.stringify(data)`. */
  function HookDisplay(data: Value, stringify: Value -> string): (r: Pick)
    ensures r == Precedence(data, HookKeys, stringify)
  {
    if data.JNull? then Thrown
    else
      assert HookKeys[0] == "answer" && HookKeys[1] == "response" && HookKeys[2] == "message";
      var chosen := Or(Or(Or(Member(data, "answer"), Member(data, "response")), Member(data, "message")),
                       Some(JString(stringify(data))));
      Picked(chosen.value)
  }

  /** The two copies agree on every payload whose `summary` is falsy or
      missing; otherwise the component shows the summary. */
  lemma DisplaysDifferOnlyBySummary(data: Value, stringify: Value -> string)
    ensures !Present(Member(data, "summary")) ==> InlineDisplay(data, stringify) == HookDisplay(data, stringify)
    ensures !data.JNull? && Present(Member(data, "summary")) ==>
      InlineDisplay(data, stringify) == Picked(data.fields["summary"])
  {
    var inline := FirstTruthy(data, InlineKeys);
    var hook := FirstTruthy(data, HookKeys);
    assert InlineKeys[1..] == HookKeys;
    if !Present(Member(data, "summary")) {
      assert inline.Some? ==> inline.value >= 1;
      assert hook.Some? ==> InlineKeys[hook.value + 1] == HookKeys[hook.value];
    }
  }

  /** The worked examples: a summary wins, a `null` summary falls through to
      the answer, and an unrecognised shape falls back to the serialisation. */
  lemma PrecedenceExamples(stringify: Value -> string)
    ensures InlineDisplay(JObject(map["summary" := JString("S")]), stringify) == Picked(JString("S"))
    ensures InlineDisplay(JObject(map["answer" := JString("A"), "summary" := JNull]), stringify) == Picked(JString("A"))
    ensures var foo := JObject(map["foo" := JString("bar")]);
      InlineDisplay(foo, stringify) == Picked(JString(stringify(foo)))
    ensures HookDisplay(JObject(map["summary" := JString("S")]), stringify)
      == Picked(JString(stringify(JObject(map["summary" := JString("S")]))))
  {
  }
}
