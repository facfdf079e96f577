/** The canned-reply selector of the chat panel: lower-case the message, scan
    an ordered keyword table, answer with the reply of the first keyword that
    occurs in the message, or with a fixed fallback reply. */
module Responder {
  import opened Text

  datatype Option<T> = None | Some(value: T)

  /** One entry of the reply table: a property name of the `responses`
      object literal and the reply it maps to. */
  datatype Rule<R> = Rule(key: string, reply: R)

  /** The key search over the table in insertion order, as an index into
      the table: the first rule whose key occurs in `text`, or none. */
  function FindKey<R>(table: seq<Rule<R>>, text: string): (r: Option<nat>)
    ensures r.Some? ==> r.value < |table| && Contains(text, table[r.value].key)
    ensures r.Some? ==> forall j :: 0 <= j < r.value ==> !Contains(text, table[j].key)
    ensures r.None? <==> forall j :: 0 <= j < |table| ==> !Contains(text, table[j].key)
  {
    if table == [] then None
    else if Includes(text, table[0].key) then Some(0)
    else
      match FindKey(table[1..], text)
      case None => None
      case Some(k) => Some(k + 1)
  }

  /** The reply for `message`: the first matching rule's reply, else the
      fallback. `keyword ? ... : ...` tests the key's truthiness, so a
      matching empty key would also give the fallback. */
  function Select<R>(table: seq<Rule<R>>, fallback: R, message: string): (r: R)
    ensures r == fallback || exists i :: 0 <= i < |table| && r == table[i].reply
    ensures (forall j :: 0 <= j < |table| ==> !Contains(ToLower(message), table[j].key)) ==> r == fallback
  {
    match FindKey(table, ToLower(message))
    case None => fallback
    case Some(i) => if table[i].key != [] then table[i].reply else fallback
  }

  /** A table as an object literal can hold it: keys are distinct and non-empty,
      and no two outcomes (replies or the fallback) are the same text, so the
      reply tells which rule fired. */
  ghost predicate WellFormed<R>(table: seq<Rule<R>>, fallback: R)
  {
    (forall i :: 0 <= i < |table| ==> table[i].key != [] && table[i].reply != fallback) &&
    (forall i, j :: 0 <= i < j < |table| ==> table[i].key != table[j].key && table[i].reply != table[j].reply)
  }

  /** First match wins: the reply is rule `k`'s exactly when key `k` occurs in
      the lower-cased message and no earlier key does. */
  lemma SelectIsFirstMatch<R>(table: seq<Rule<R>>, fallback: R, message: string, k: nat)
    requires WellFormed(table, fallback)
    requires k < |table|
    ensures Select(table, fallback, message) == table[k].reply <==>
            Contains(ToLower(message), table[k].key) &&
            forall j :: 0 <= j < k ==> !Contains(ToLower(message), table[j].key)
  {
    var text := ToLower(message);
    match FindKey(table, text)
    case None =>
    case Some(i) =>
      if i < k {
        assert table[i].reply != table[k].reply;
      } else if i > k {
        assert table[k].reply != table[i].reply;
      }
  }

  /** The fallback is given exactly when no key occurs in the lower-cased message. */
  lemma SelectFallbackIff<R>(table: seq<Rule<R>>, fallback: R, message: string)
    requires WellFormed(table, fallback)
    ensures Select(table, fallback, message) == fallback <==>
            forall j :: 0 <= j < |table| ==> !Contains(ToLower(message), table[j].key)
  {
    match FindKey(table, ToLower(message))
    case None =>
    case Some(i) =>
      assert table[i].reply != fallback;
  }

  /** Matching ignores case: a message and its lower-cased form get the same reply. */
  lemma SelectIgnoresCase<R>(table: seq<Rule<R>>, fallback: R, message: string)
    ensures Select(table, fallback, ToLower(message)) == Select(table, fallback, message)
  {
    ToLowerIdempotent(message);
  }

  /** The order of the table decides, not the length of the key: with rules
      "a" and "ab", the message "xaby" gets the reply of "a". */
  lemma FirstRuleWinsExample()
    ensures Select([Rule("a", "R1"), Rule("ab", "R2")], "F", "xaby") == "R1"
  {
    LowerIsFixed("xaby");
    assert OccursAt("xaby", "a", 1);
  }
}
