/**
 * The body of a reply from the Twitter lookup service, as the bot sees it
 * after parsing: an untyped JSON tree. The bot never binds to a schema; it
 * reads this tree with JavaScript's and Python's own notions of truth,
 * string conversion and (for Python) dictionary membership and indexing,
 * which this module gives.
 */
module Json {

  /** A JSON value, as parsed. An object keeps its members in the order in
      which `for...in` (JavaScript) and dictionary iteration (Python) visit
      them; a parsed object holds each key once (`JSON.parse` and
      `json.loads` both keep the last of repeated keys), and the reply
      bodies the model reads are taken to be in that parsed form. */
  datatype Value =
    | Null
    | Bool(b: bool)
    | Num(n: int)
    | Str(s: string)
    | Arr(items: seq<Value>)
    | Obj(members: seq<Member>)

  datatype Member = Member(key: string, value: Value)

  /** The outcome of one request to the lookup service: a parsed body, or
      any failure (network error, HTTP error status, unparsable body). */
  datatype Fetched = Received(body: Value) | RequestError

  // ---------------------------------------------------------------------
  // JavaScript
  // ---------------------------------------------------------------------

  /** `!!v` in JavaScript: arrays and objects are truthy even when empty. */
  predicate JsTruthy(v: Value) {
    match v
    case Null => false
    case Bool(b) => b
    case Num(n) => n != 0
    case Str(s) => s != ""
    case Arr(_) => true
    case Obj(_) => true
  }

  function DigitChar(d: nat): (c: char)
    requires d < 10
    ensures '0' <= c <= '9'
  {
    "0123456789"[d]
  }

  /** Decimal notation of a natural number, most significant digit first. */
  function Decimal(n: nat): (s: string)
    ensures |s| >= 1
    ensures forall i :: 0 <= i < |s| ==> '0' <= s[i] <= '9'
    decreases n
  {
    if n < 10 then [DigitChar(n)] else Decimal(n / 10) + [DigitChar(n % 10)]
  }

  function IntToString(n: int): string {
    if n < 0 then "-" + Decimal(-n) else Decimal(n)
  }

  /** JavaScript `String(v)`; an array is joined with commas, a `null`
      element contributing the empty string. */
  function JsString(v: Value): string
    decreases v
  {
    match v
    case Null => "null"
    case Bool(b) => if b then "true" else "false"
    case Num(n) => IntToString(n)
    case Str(s) => s
    case Arr(items) => JsJoin(items)
    case Obj(_) => "[object Object]"
  }

  /** `items.join(",")` in JavaScript. */
  function JsJoin(items: seq<Value>): string
    decreases items
  {
    if items == [] then ""
    else
      var last := items[|items| - 1];
      var lastText := if last.Null? then "" else JsString(last);
      if |items| == 1 then lastText else JsJoin(items[..|items| - 1]) + "," + lastText
  }

  // ---------------------------------------------------------------------
  // Python
  // ---------------------------------------------------------------------

  /** The result of a Python expression that may raise. */
  datatype Py<+T> = Done(result: T) | Raised

  /** `bool(v)` in Python: empty lists and dicts are falsy too. */
  predicate PyTruthy(v: Value) {
    match v
    case Null => false
    case Bool(b) => b
    case Num(n) => n != 0
    case Str(s) => s != ""
    case Arr(items) => items != []
    case Obj(members) => members != []
  }

  /** `str(v)` in Python, exactly for scalars; a list or a dict is rendered
      by its brackets only (such a text is never a run of digits). */
  function PyStr(v: Value): string {
    match v
    case Null => "None"
    case Bool(b) => if b then "True" else "False"
    case Num(n) => IntToString(n)
    case Str(s) => s
    case Arr(_) => "[...]"
    case Obj(_) => "{...}"
  }

  predicate HasKey(members: seq<Member>, key: string) {
    exists i :: 0 <= i < |members| && members[i].key == key
  }

  /** The value a Python dict built from `members` holds under `key`. On a
      parsed object, whose keys are distinct, that is the one member with
      the key; should a key repeat, the last member wins, as in
      `json.loads`. */
  function Lookup(members: seq<Member>, key: string): (v: Value)
    requires HasKey(members, key)
    ensures exists i :: 0 <= i < |members| && members[i] == Member(key, v)
    decreases |members|
  {
    var last := members[|members| - 1];
    if last.key == key then last.value
    else
      assert HasKey(members[..|members| - 1], key) by {
        var i :| 0 <= i < |members| && members[i].key == key;
        assert members[..|members| - 1][i].key == key;
      }
      var v := Lookup(members[..|members| - 1], key);
      assert forall i :: 0 <= i < |members| - 1 ==> members[..|members| - 1][i] == members[i];
      v
  }

  predicate OccursAt(needle: string, hay: string, i: nat) {
    i + |needle| <= |hay| && hay[i..i + |needle|] == needle
  }

  predicate IsSubstring(needle: string, hay: string) {
    exists i: nat | i <= |hay| :: OccursAt(needle, hay, i)
  }

  /** `key in container` in Python: a dict tests its keys, a list its
      elements, a string its substrings; anything else raises TypeError. */
  function PyContains(container: Value, key: string): Py<bool> {
    match container
    case Obj(members) => Done(HasKey(members, key))
    case Arr(items) => Done(Str(key) in items)
    case Str(s) => Done(IsSubstring(key, s))
    case _ => Raised
  }

  /** `container[key]` with a string key in Python: only a dict holding the
      key answers; a missing key raises KeyError, anything else TypeError. */
  function PyIndex(container: Value, key: string): Py<Value> {
    if container.Obj? && HasKey(container.members, key)
    then Done(Lookup(container.members, key))
    else Raised
  }

  /** `d.get(key)` on a dict: the value, or `None` when the key is absent. */
  function PyGet(members: seq<Member>, key: string): Value {
    if HasKey(members, key) then Lookup(members, key) else Null
  }

  /** What `for x in container` visits in Python: a list its elements, a
      dict its keys, a string its characters; anything else raises. */
  function PyIterate(container: Value): Py<seq<Value>> {
    match container
    case Arr(items) => Done(items)
    case Obj(members) => Done(seq(|members|, i requires 0 <= i < |members| => Str(members[i].key)))
    case Str(s) => Done(seq(|s|, i requires 0 <= i < |s| => Str([s[i]])))
    case _ => Raised
  }
}
