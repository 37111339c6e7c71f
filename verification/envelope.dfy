/**
 The query message and its validator. A message carries the protocol's type
 tag, a numeric identifier derived from the send time, the field to search
 and the pattern. Each context keeps the set of identifiers it has already
 handled; the validator refuses a message whose identifier is in that set,
 except that an identifier of 0 is falsy in JavaScript and so is never
 refused as a duplicate.
 */
module Envelope {
  import opened Options
  import opened Matcher

  /** The protocol's type tag. */
  const MessageType := "application/x-hook-search-v1+json"

  /** The `uid` property as received: a number, or anything else. */
  datatype UidField = Number(n: int) | NotNumber

  /** The message payload, `IMessageData`. */
  datatype Message = Message(tag: string, uid: UidField, pattern: Pattern, fieldName: string)

  /** JavaScript truthiness of the identifier: a number is falsy only when it is 0. */
  predicate Truthy(uid: UidField) {
    uid.Number? && uid.n != 0
  }

  /**
   `isValidMessageEvent`: `data` is the event's payload (`None` when it is
   missing), `seen` the context's set of handled identifiers.
   */
  function IsValidMessageEvent(data: Option<Message>, seen: set<int>): (ok: bool)
    ensures ok <==>
      && data.Some?
      && data.value.tag == MessageType
      && data.value.uid.Number?
      && (data.value.uid.n == 0 || data.value.uid.n !in seen)
  {
    if data.None? then false
    else if data.value.tag != MessageType || !data.value.uid.Number? then false
    else if Truthy(data.value.uid) && data.value.uid.n in seen then false
    else true
  }

  /** An identifier of 0 is accepted whatever the context has seen. */
  lemma ZeroUidNeverDuplicate(m: Message, seen: set<int>)
    requires m.tag == MessageType && m.uid == Number(0)
    ensures IsValidMessageEvent(Some(m), seen)
  {
  }

  /**
   `searchByMsg`: the query for `pattern` on `fieldName` (the `value` field when
   the argument is left out), identified by `uid`, the send time in
   milliseconds.
   */
  function SearchByMsg(uid: int, pattern: Pattern, fieldName: Option<string>): (m: Message)
    ensures m.tag == MessageType && m.uid == Number(uid)
    ensures m.pattern == pattern
    ensures fieldName.Some? ==> m.fieldName == fieldName.value
    ensures fieldName.None? ==> m.fieldName == "value"
  {
    Message(MessageType, Number(uid), pattern, ValueOr(fieldName, "value"))
  }

  /** `searchNameByMsg`: the query for `pattern` on the `name` field. */
  function SearchNameByMsg(uid: int, pattern: Pattern): (m: Message)
    ensures m.tag == MessageType && m.uid == Number(uid)
    ensures m.pattern == pattern && m.fieldName == "name"
  {
    SearchByMsg(uid, pattern, Some("name"))
  }

  /** Leaving out the field is the same as asking for `value`. */
  lemma DefaultFieldIsValue(uid: int, pattern: Pattern)
    ensures SearchByMsg(uid, pattern, None) == SearchByMsg(uid, pattern, Some("value"))
  {
  }

  /**
   A freshly built query passes validation exactly when its identifier is 0
   or has not been handled in this context yet.
   */
  lemma BuiltQueryValidity(uid: int, pattern: Pattern, fieldName: Option<string>, seen: set<int>)
    ensures IsValidMessageEvent(Some(SearchByMsg(uid, pattern, fieldName)), seen) <==> (uid == 0 || uid !in seen)
  {
  }
}
