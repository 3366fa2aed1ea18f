/** The decoder of the language model's reply in getAITrafficDecision: cut
    the JSON object out of the reply text, and normalise its fields into a
    decision with a valid direction and defaults, or fall back to a fixed
    safe decision. The network call and JSON.parse are parameters. */
module Decoder {
  import opened Base

  /** A parsed JSON value. */
  datatype Json = JNull | JBool(b: bool) | JNumber(n: real) | JString(s: string)
                | JArray(items: seq<Json>) | JObject(fields: map<string, Json>)

  /** JavaScript truthiness; a missing key reads as undefined, which is falsy. */
  predicate Truthy(j: Option<Json>) {
    match j
    case None => false
    case Some(JNull) => false
    case Some(JBool(b)) => b
    case Some(JNumber(n)) => n != 0.0
    case Some(JString(s)) => s != ""
    case Some(JArray(_)) => true
    case Some(JObject(_)) => true
  }

  function Field(o: map<string, Json>, k: string): Option<Json> {
    if k in o then Some(o[k]) else None
  }

  /** `a || b || fallback`: the result is a truthy operand or the fallback,
      a truthy first operand always wins, then a truthy second one, and the result is truthy whenever
      any of the three is. */
  function Or(a: Option<Json>, b: Option<Json>, fallback: Json): (r: Json)
    ensures (Truthy(a) && r == a.value) || (Truthy(b) && r == b.value) || r == fallback
    ensures Truthy(a) ==> r == a.value
    ensures !Truthy(a) && Truthy(b) ==> r == b.value
    ensures Truthy(a) || Truthy(b) || Truthy(Some(fallback)) ==> Truthy(Some(r))
  {
    if Truthy(a) then a.value else if Truthy(b) then b.value else fallback
  }

  /** A decision as the decoder returns it; duration and reasoning are
      whatever truthy JSON values the reply carried. */
  datatype Decision = Decision(direction: string, duration: Json, reasoning: Json)

  const FALLBACK_REASONING: string := "AI Error: Defaulting to a safe pattern due to an API or parsing issue."
  const FALLBACK: Decision := Decision("north", JNumber(15.0), JString(FALLBACK_REASONING))
  const NO_REASONING: string := "Reasoning not provided by AI."
  const VALID_DIRECTIONS: seq<string> := ["north", "south", "east", "west"]

  // ---------------------------------------------------------------- extraction

  /** `s.indexOf(c)` */
  function IndexOf(s: string, c: char): (i: int)
    ensures i == -1 ==> forall k :: 0 <= k < |s| ==> s[k] != c
    ensures i != -1 ==> 0 <= i < |s| && s[i] == c && forall k :: 0 <= k < i ==> s[k] != c
    decreases |s|
  {
    if s == [] then -1
    else if s[0] == c then 0
    else
      var j := IndexOf(s[1..], c);
      if j == -1 then -1 else j + 1
  }

  /** `s.lastIndexOf(c)` */
  function LastIndexOf(s: string, c: char): (i: int)
    ensures i == -1 ==> forall k :: 0 <= k < |s| ==> s[k] != c
    ensures i != -1 ==> 0 <= i < |s| && s[i] == c && forall k :: i < k < |s| ==> s[k] != c
    decreases |s|
  {
    if s == [] then -1
    else if s[|s| - 1] == c then |s| - 1
    else LastIndexOf(s[..|s| - 1], c)
  }

  /** The substring from the first '{' to the last '}', both included, or
      nothing when either is missing or the last '}' precedes the first '{'. */
  function Extract(text: string): Option<string> {
    var first := IndexOf(text, '{');
    var last := LastIndexOf(text, '}');
    if first == -1 || last == -1 || last < first then None
    else Some(text[first..last + 1])
  }

  /** An object is found exactly when some '{' comes before some '}'. */
  lemma ExtractFindsObject(text: string)
    ensures Extract(text).Some? <==>
      exists i, j :: 0 <= i < j < |text| && text[i] == '{' && text[j] == '}'
  {
    var first := IndexOf(text, '{');
    var last := LastIndexOf(text, '}');
    if first != -1 && last != -1 && first <= last {
      assert first != last;
      assert text[first] == '{' && text[last] == '}';
    }
  }

  /** The extracted string begins with '{' and ends with '}', and it is all
      of the text between a prefix without '{' and a suffix without '}'. */
  lemma ExtractShape(text: string)
    requires Extract(text).Some?
    ensures var js := Extract(text).value;
      && |js| >= 2 && js[0] == '{' && js[|js| - 1] == '}'
      && exists pre, post :: text == pre + js + post && '{' !in pre && '}' !in post
  {
    var first := IndexOf(text, '{');
    var last := LastIndexOf(text, '}');
    assert first != last;
    var js := text[first..last + 1];
    var pre, post := text[..first], text[last + 1..];
    assert '{' !in pre by {
      forall k | 0 <= k < |pre| ensures pre[k] != '{' {
        assert pre[k] == text[k];
      }
    }
    assert '}' !in post by {
      forall k | 0 <= k < |post| ensures post[k] != '}' {
        assert post[k] == text[last + 1 + k];
      }
    }
    assert text == pre + js + post;
  }

  /** The converse: an object wrapped in a prefix without '{' and a suffix
      without '}' is extracted exactly. */
  lemma ExtractWrapped(pre: string, js: string, post: string)
    requires |js| >= 2 && js[0] == '{' && js[|js| - 1] == '}'
    requires '{' !in pre && '}' !in post
    ensures Extract(pre + js + post) == Some(js)
  {
    var text := pre + js + post;
    var open, close := |pre|, |pre| + |js| - 1;
    assert text[open] == '{' && text[close] == '}';
    assert forall k :: 0 <= k < open ==> text[k] == pre[k];
    assert forall k :: close < k < |text| ==> text[k] == post[k - |pre| - |js|];
    var first := IndexOf(text, '{');
    var last := LastIndexOf(text, '}');
    assert first == open;
    assert last == close;
    assert text[first..last + 1] == js;
  }

  // ---------------------------------------------------------------- normalisation

  predicate IsUpper(ch: char) {
    'A' <= ch <= 'Z'
  }

  /** `toLowerCase` on ASCII letters: no capital letter is left, every other
      character is kept, and each capital becomes the lower-case letter 32
      code points above it. */
  function ToLower(s: string): (r: string)
    ensures |r| == |s|
    ensures forall i :: 0 <= i < |r| ==> !IsUpper(r[i])
    ensures forall i :: 0 <= i < |s| && !IsUpper(s[i]) ==> r[i] == s[i]
    ensures forall i :: 0 <= i < |s| && IsUpper(s[i]) ==> 'a' <= r[i] <= 'z' && r[i] as int == s[i] as int + 32
  {
    seq(|s|, i requires 0 <= i < |s| => if IsUpper(s[i]) then (s[i] as int + 32) as char else s[i])
  }

  /** Lowercasing twice is lowercasing once, and a string without capitals
      is its own lower case. */
  lemma ToLowerLaws(s: string)
    ensures ToLower(ToLower(s)) == ToLower(s)
    ensures (forall i :: 0 <= i < |s| ==> !IsUpper(s[i])) ==> ToLower(s) == s
  {
    assert forall i :: 0 <= i < |s| ==> ToLower(ToLower(s))[i] == ToLower(s)[i];
  }

  /** The direction step: `(a || b || "north").toLowerCase()`, replaced by
      "north" when not one of the four names; a truthy value that is not a
      string has no toLowerCase, so the call throws (None). */
  function NormaliseDirection(o: map<string, Json>): Option<string> {
    match Or(Field(o, "next_green_direction"), Field(o, "nextGreenDirection"), JString("north"))
    case JString(s) => if ToLower(s) in VALID_DIRECTIONS then Some(ToLower(s)) else Some("north")
    case _ => None
  }

  /** The standardised response, or None when building it throws. */
  function Normalise(o: map<string, Json>): Option<Decision> {
    match NormaliseDirection(o)
    case None => None
    case Some(dir) =>
      Some(Decision(dir,
                    Or(Field(o, "green_light_duration"), Field(o, "durationSeconds"), JNumber(15.0)),
                    Or(Field(o, "reasoning"), None, JString(NO_REASONING))))
  }

  /** The inner try block: extract, parse, normalise, or the fallback. */
  function Decode(text: string, parse: string -> Option<map<string, Json>>): Decision {
    match Extract(text)
    case None => FALLBACK
    case Some(js) =>
      match parse(js)
      case None => FALLBACK
      case Some(o) =>
        match Normalise(o)
        case None => FALLBACK
        case Some(d) => d
  }

  /** What the model call produced: `Failed` when the call threw or there is
      no response object; otherwise the block reason of the prompt feedback
      and the reply text (`None` when `text()` throws or gives nothing). */
  datatype Reply = Failed | Reply(blockReason: Option<string>, text: Option<string>)

  /** getAITrafficDecision after the network call. */
  function GetAITrafficDecision(reply: Reply, parse: string -> Option<map<string, Json>>): Decision {
    match reply
    case Failed => FALLBACK
    case Reply(blockReason, text) =>
      if blockReason.Some? && blockReason.value != "" then FALLBACK
      else if text.None? || text.value == "" then FALLBACK
      else Decode(text.value, parse)
  }

  // ---------------------------------------------------------------- properties

  /** Whatever the reply, the decided direction is one of the four approaches. */
  lemma DirectionAlwaysValid(reply: Reply, parse: string -> Option<map<string, Json>>)
    ensures GetAITrafficDecision(reply, parse).direction in VALID_DIRECTIONS
  {
  }

  /** A failed call, a blocked prompt, an empty text or a text with no
      '{' before a '}' all give the fallback decision. */
  lemma FallbackCases(reply: Reply, parse: string -> Option<map<string, Json>>)
    requires || reply.Failed?
             || (reply.blockReason.Some? && reply.blockReason.value != "")
             || reply.text.None? || reply.text.value == ""
             || !(exists i, j :: 0 <= i < j < |reply.text.value| && reply.text.value[i] == '{' && reply.text.value[j] == '}')
    ensures GetAITrafficDecision(reply, parse) == FALLBACK
  {
    if reply.Reply? && reply.text.Some? {
      ExtractFindsObject(reply.text.value);
    }
  }

  /** Direction precedence: the snake-case key, then the camel-case key, then
      "north"; an empty string falls through. A string is lowercased and kept
      when it names an approach, else "north"; any other truthy value makes
      the whole decision the fallback. */
  lemma DirectionPrecedence(o: map<string, Json>)
    ensures var a := Field(o, "next_green_direction"); var b := Field(o, "nextGreenDirection");
      var chosen := if Truthy(a) then a.value else if Truthy(b) then b.value else JString("north");
      && (chosen.JString? && ToLower(chosen.s) in VALID_DIRECTIONS ==> NormaliseDirection(o) == Some(ToLower(chosen.s)))
      && (chosen.JString? && ToLower(chosen.s) !in VALID_DIRECTIONS ==> NormaliseDirection(o) == Some("north"))
      && (!chosen.JString? ==> Normalise(o).None?)
  {
  }

  /** Case does not matter: any capitalisation s of one of the four names
      (each letter either as written or its capital) under the snake-case
      key decides that name. */
  lemma DirectionCaseInsensitive(o: map<string, Json>, s: string, name: string)
    requires name in VALID_DIRECTIONS && |s| == |name|
    requires forall i :: 0 <= i < |s| ==> s[i] == name[i] || s[i] as int + 32 == name[i] as int
    requires Field(o, "next_green_direction") == Some(JString(s))
    ensures NormaliseDirection(o) == Some(name)
  {
    forall i | 0 <= i < |s| ensures ToLower(s)[i] == name[i] {
      assert 'a' <= name[i] <= 'z';
    }
    assert ToLower(s) == name;
  }

  /** Duration and reasoning defaults: a falsy duration (0, "", null or
      absent) under both keys becomes 15, and missing reasoning becomes the
      decoder's own text, not the reducer's. */
  lemma FieldDefaults(o: map<string, Json>, d: Decision)
    requires Normalise(o) == Some(d)
    ensures !Truthy(Field(o, "green_light_duration")) && !Truthy(Field(o, "durationSeconds")) ==> d.duration == JNumber(15.0)
    ensures Truthy(Field(o, "green_light_duration")) ==> d.duration == o["green_light_duration"]
    ensures !Truthy(Field(o, "green_light_duration")) && Truthy(Field(o, "durationSeconds")) ==> d.duration == o["durationSeconds"]
    ensures !Truthy(Field(o, "reasoning")) ==> d.reasoning == JString(NO_REASONING)
    ensures Truthy(Field(o, "reasoning")) ==> d.reasoning == o["reasoning"]
  {
  }

  /** A reply whose object is empty is not the fallback: it decides north
      for 15 seconds with the decoder's "not provided" reasoning. */
  lemma EmptyObjectIsNotFallback(pre: string, post: string, parse: string -> Option<map<string, Json>>)
    requires '{' !in pre && '}' !in post
    requires parse("{}") == Some(map[])
    ensures GetAITrafficDecision(Reply(None, Some(pre + "{}" + post)), parse)
         == Decision("north", JNumber(15.0), JString(NO_REASONING))
    ensures GetAITrafficDecision(Reply(None, Some(pre + "{}" + post)), parse) != FALLBACK
  {
    ExtractWrapped(pre, "{}", post);
    assert ToLower("north") == "north";
  }

  /** A well-formed reply decodes to exactly what it says: the object cut
      out of the surrounding prose, parsed, with its valid lowercase
      direction, its non-zero duration and its reasoning. */
  lemma WellFormedReplyDecodes(pre: string, js: string, post: string,
                               parse: string -> Option<map<string, Json>>,
                               dir: string, seconds: real, why: string)
    requires |js| >= 2 && js[0] == '{' && js[|js| - 1] == '}'
    requires '{' !in pre && '}' !in post
    requires dir in VALID_DIRECTIONS && seconds != 0.0 && why != ""
    requires parse(js) == Some(map["next_green_direction" := JString(dir),
                                   "green_light_duration" := JNumber(seconds),
                                   "reasoning" := JString(why)])
    ensures GetAITrafficDecision(Reply(None, Some(pre + js + post)), parse)
         == Decision(dir, JNumber(seconds), JString(why))
  {
    ExtractWrapped(pre, js, post);
    assert ToLower(dir) == dir;
  }
}
