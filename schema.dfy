/**
 * clerk's `validate_json_structure`: the record schema checked on the parsed
 * JSON value, in a fixed order, stopping at the first failure with its own
 * message. The ISO-8601 test (`datetime.fromisoformat`) is a parameter.
 */
module Schema {
  import opened Wrappers

  /** A parsed JSON value (numbers are not distinguished by the schema). */
  datatype Json =
    | JNull
    | JBool(b: bool)
    | JNum(n: real)
    | JStr(s: string)
    | JArr(items: seq<Json>)
    | JObj(fields: map<string, Json>)

  /** The validator's answer: a flag and a message. */
  datatype Verdict = Verdict(valid: bool, message: string)

  const RequiredKeys: seq<string> := ["identifier", "date", "correspondent", "summary"]

  const ValidMessage: string := "JSON structure is valid"
  const NotObjectMessage: string := "JSON must be a single object"
  const BadDateMessage: string := "Invalid ISO8601 date format"
  const TagsNotArrayMessage: string := "'tags' must be an array"
  const TagsNotStringsMessage: string := "All items in 'tags' must be strings"

  function MissingKeyMessage(key: string): string
  {
    "Missing required key: " + key
  }

  function NotStringMessage(key: string): string
  {
    "Value for '" + key + "' must be a string"
  }

  predicate HasString(fields: map<string, Json>, key: string)
  {
    key in fields && fields[key].JStr?
  }

  /**
   * The loop over the required keys: presence, then type, key by key; the
   * first failure's message, or none when every key holds a string.
   */
  function CheckKeys(fields: map<string, Json>, keys: seq<string>): (r: Option<string>)
    ensures r.None? <==> forall k :: 0 <= k < |keys| ==> HasString(fields, keys[k])
  {
    if keys == [] then None
    else if keys[0] !in fields then Some(MissingKeyMessage(keys[0]))
    else if !fields[keys[0]].JStr? then Some(NotStringMessage(keys[0]))
    else
      var rest := CheckKeys(fields, keys[1..]);
      assert forall k :: 1 <= k < |keys| ==> keys[k] == keys[1..][k - 1];
      rest
  }

  predicate AllStrings(items: seq<Json>)
  {
    forall k :: 0 <= k < |items| ==> items[k].JStr?
  }

  /**
   * `validate_json_structure`. It accepts exactly the records of the schema,
   * and its message is "JSON structure is valid" exactly when it accepts.
   */
  function Validate(j: Json, isIsoDate: string -> bool): (v: Verdict)
    ensures v.valid <==> IsRecord(j, isIsoDate)
    ensures v.valid <==> v.message == ValidMessage
  {
    FixedMessagesAreNotValid();
    if !j.JObj? then Verdict(false, NotObjectMessage)
    else
      RequiredKeysChecked(j.fields);
      match CheckKeys(j.fields, RequiredKeys)
      case Some(msg) => Verdict(false, msg)
      case None =>
        if !isIsoDate(j.fields["date"].s) then Verdict(false, BadDateMessage)
        else if "tags" in j.fields && !j.fields["tags"].JArr? then Verdict(false, TagsNotArrayMessage)
        else if "tags" in j.fields && !AllStrings(j.fields["tags"].items) then Verdict(false, TagsNotStringsMessage)
        else Verdict(true, ValidMessage)
  }

  /** The record schema stated directly, independent of the check order. */
  predicate IsRecord(j: Json, isIsoDate: string -> bool)
  {
    && j.JObj?
    && HasString(j.fields, "identifier")
    && HasString(j.fields, "date")
    && HasString(j.fields, "correspondent")
    && HasString(j.fields, "summary")
    && isIsoDate(j.fields["date"].s)
    && ("tags" in j.fields ==> j.fields["tags"].JArr? && AllStrings(j.fields["tags"].items))
  }

  lemma NotValidMessage(m: string)
    requires m == NotObjectMessage || m == BadDateMessage || m == TagsNotArrayMessage
          || m == TagsNotStringsMessage
          || (exists key :: m == MissingKeyMessage(key))
          || (exists key :: m == NotStringMessage(key))
    ensures m != ValidMessage
  {
    if m == NotObjectMessage {
      assert m[5] != ValidMessage[5];
    } else if m == BadDateMessage || m == TagsNotArrayMessage || m == TagsNotStringsMessage {
      assert m[0] != ValidMessage[0];
    } else if exists key :: m == MissingKeyMessage(key) {
      var key :| m == MissingKeyMessage(key);
      assert m[0] == 'M';
    } else {
      var key :| m == NotStringMessage(key);
      assert m[0] == 'V';
    }
  }

  /** None of the four fixed failure messages is the success message. */
  lemma FixedMessagesAreNotValid()
    ensures NotObjectMessage != ValidMessage && BadDateMessage != ValidMessage
    ensures TagsNotArrayMessage != ValidMessage && TagsNotStringsMessage != ValidMessage
  {
    NotValidMessage(NotObjectMessage);
    NotValidMessage(BadDateMessage);
    NotValidMessage(TagsNotArrayMessage);
    NotValidMessage(TagsNotStringsMessage);
  }

  /**
   * The key loop over the four required keys passes exactly when each holds a
   * string, and a failure never carries the success message.
   */
  lemma RequiredKeysChecked(fields: map<string, Json>)
    ensures CheckKeys(fields, RequiredKeys).None? <==>
      && HasString(fields, "identifier") && HasString(fields, "date")
      && HasString(fields, "correspondent") && HasString(fields, "summary")
    ensures CheckKeys(fields, RequiredKeys).Some? ==> CheckKeys(fields, RequiredKeys).value != ValidMessage
  {
    var c := CheckKeys(fields, RequiredKeys);
    if c.None? {
      assert HasString(fields, RequiredKeys[0]) && HasString(fields, RequiredKeys[1]);
      assert HasString(fields, RequiredKeys[2]) && HasString(fields, RequiredKeys[3]);
    } else {
      CheckKeysMessage(fields, RequiredKeys);
      var k :| 0 <= k < |RequiredKeys| && !HasString(fields, RequiredKeys[k])
        && (c.value == MissingKeyMessage(RequiredKeys[k]) || c.value == NotStringMessage(RequiredKeys[k]));
      assert k == 0 || k == 1 || k == 2 || k == 3;
      NotValidMessage(c.value);
    }
  }

  /**
   * A failure from the key loop is one of the two per-key messages, for a
   * listed key that lacks a string.
   */
  lemma {:induction false} CheckKeysMessage(fields: map<string, Json>, keys: seq<string>)
    requires CheckKeys(fields, keys).Some?
    ensures var m := CheckKeys(fields, keys).value;
      exists k :: 0 <= k < |keys| && !HasString(fields, keys[k])
        && (m == MissingKeyMessage(keys[k]) || m == NotStringMessage(keys[k]))
  {
    var m := CheckKeys(fields, keys).value;
    if keys[0] !in fields {
      assert !HasString(fields, keys[0]) && m == MissingKeyMessage(keys[0]);
    } else if !fields[keys[0]].JStr? {
      assert !HasString(fields, keys[0]) && m == NotStringMessage(keys[0]);
    } else {
      CheckKeysMessage(fields, keys[1..]);
      var k :| 0 <= k < |keys[1..]| && !HasString(fields, keys[1..][k])
        && (m == MissingKeyMessage(keys[1..][k]) || m == NotStringMessage(keys[1..][k]));
      assert keys[1..][k] == keys[k + 1];
    }
  }

  /**
   * Check order over the keys: the first key (in the order identifier, date,
   * correspondent, summary) that is missing or not a string decides the
   * message, presence being checked before type.
   */
  lemma {:induction false} FirstBadKeyReported(fields: map<string, Json>, keys: seq<string>, i: nat)
    requires i < |keys|
    requires forall k :: 0 <= k < i ==> HasString(fields, keys[k])
    requires !HasString(fields, keys[i])
    ensures CheckKeys(fields, keys)
         == Some(if keys[i] !in fields then MissingKeyMessage(keys[i]) else NotStringMessage(keys[i]))
  {
    if i > 0 {
      assert HasString(fields, keys[0]);
      FirstBadKeyReported(fields, keys[1..], i - 1);
    }
  }

  /** The same, for the whole validator on an object. */
  lemma KeyFailureReported(fields: map<string, Json>, isIsoDate: string -> bool, i: nat)
    requires i < |RequiredKeys|
    requires forall k :: 0 <= k < i ==> HasString(fields, RequiredKeys[k])
    requires !HasString(fields, RequiredKeys[i])
    ensures Validate(JObj(fields), isIsoDate)
         == Verdict(false, if RequiredKeys[i] !in fields then MissingKeyMessage(RequiredKeys[i])
                           else NotStringMessage(RequiredKeys[i]))
  {
    FirstBadKeyReported(fields, RequiredKeys, i);
  }

  /**
   * The date is checked only after all four keys, and before `tags`: with the
   * keys in place, a date that is not ISO-8601 is reported whatever `tags` holds.
   */
  lemma DateCheckedBeforeTags(fields: map<string, Json>, isIsoDate: string -> bool)
    requires HasString(fields, "identifier") && HasString(fields, "date")
    requires HasString(fields, "correspondent") && HasString(fields, "summary")
    requires !isIsoDate(fields["date"].s)
    ensures Validate(JObj(fields), isIsoDate) == Verdict(false, BadDateMessage)
  {
    assert forall k :: 0 <= k < |RequiredKeys| ==> HasString(fields, RequiredKeys[k]);
  }

  /** Anything but an object is rejected first, with "JSON must be a single object". */
  lemma NonObjectRejected(j: Json, isIsoDate: string -> bool)
    requires !j.JObj?
    ensures Validate(j, isIsoDate) == Verdict(false, NotObjectMessage)
  {
  }

  /** The four keys hold strings and the date is ISO-8601: only `tags` is left to check. */
  predicate KeysAndDatePass(fields: map<string, Json>, isIsoDate: string -> bool)
  {
    && HasString(fields, "identifier") && HasString(fields, "date")
    && HasString(fields, "correspondent") && HasString(fields, "summary")
    && isIsoDate(fields["date"].s)
  }

  /** Once keys and date pass, a `tags` value that is not an array is rejected as such. */
  lemma TagsNotArrayRejected(fields: map<string, Json>, isIsoDate: string -> bool)
    requires KeysAndDatePass(fields, isIsoDate)
    requires "tags" in fields && !fields["tags"].JArr?
    ensures Validate(JObj(fields), isIsoDate) == Verdict(false, TagsNotArrayMessage)
  {
    RequiredKeysChecked(fields);
  }

  /** Once keys and date pass, a `tags` array holding a non-string is rejected as such. */
  lemma TagsNotStringsRejected(fields: map<string, Json>, isIsoDate: string -> bool, k: nat)
    requires KeysAndDatePass(fields, isIsoDate)
    requires "tags" in fields && fields["tags"].JArr?
    requires k < |fields["tags"].items| && !fields["tags"].items[k].JStr?
    ensures Validate(JObj(fields), isIsoDate) == Verdict(false, TagsNotStringsMessage)
  {
    RequiredKeysChecked(fields);
  }

  /** The key loop only looks at the keys it is given. */
  lemma {:induction false} CheckKeysIgnoresOtherKeys(fields: map<string, Json>, keys: seq<string>, extra: string, x: Json)
    requires forall k :: 0 <= k < |keys| ==> keys[k] != extra
    ensures CheckKeys(fields[extra := x], keys) == CheckKeys(fields, keys)
  {
    if keys != [] {
      CheckKeysIgnoresOtherKeys(fields, keys[1..], extra, x);
    }
  }

  /** Keys other than the four required ones and `tags` never change the verdict. */
  lemma ExtraKeysIgnored(fields: map<string, Json>, isIsoDate: string -> bool, extra: string, x: Json)
    requires extra !in {"identifier", "date", "correspondent", "summary", "tags"}
    ensures Validate(JObj(fields[extra := x]), isIsoDate) == Validate(JObj(fields), isIsoDate)
  {
    CheckKeysIgnoresOtherKeys(fields, RequiredKeys, extra, x);
  }
}

/** The rejections listed for the validator, on concrete records. */
module SchemaExamples {
  import opened Schema

  const Invoice: map<string, Json> := map[
    "identifier" := JStr("INV-1"),
    "date" := JStr("2024-05-01"),
    "correspondent" := JStr("Acme")
  ]

  lemma ArrayRejected(isIsoDate: string -> bool)
    ensures Validate(JArr([JObj(Invoice)]), isIsoDate) == Verdict(false, "JSON must be a single object")
  {
  }

  /** The two per-key messages for `summary`, spelled out. */
  lemma MessageText()
    ensures MissingKeyMessage("summary") == "Missing required key: summary"
    ensures NotStringMessage("summary") == "Value for 'summary' must be a string"
  {
  }

  lemma MissingSummaryRejected(isIsoDate: string -> bool)
    ensures Validate(JObj(Invoice), isIsoDate) == Verdict(false, "Missing required key: summary")
  {
    KeyFailureReported(Invoice, isIsoDate, 3);
    MessageText();
  }

  lemma NumericSummaryRejected(isIsoDate: string -> bool)
    ensures Validate(JObj(Invoice["summary" := JNum(3.0)]), isIsoDate)
         == Verdict(false, "Value for 'summary' must be a string")
  {
    var fields := Invoice["summary" := JNum(3.0)];
    assert HasString(fields, RequiredKeys[0]) && HasString(fields, RequiredKeys[1]);
    assert HasString(fields, RequiredKeys[2]);
    assert RequiredKeys[3] in fields && !HasString(fields, RequiredKeys[3]);
    KeyFailureReported(fields, isIsoDate, 3);
    MessageText();
  }

  lemma MixedTagsRejected(isIsoDate: string -> bool)
    requires isIsoDate("2024-05-01")
    ensures Validate(JObj(Invoice["summary" := JStr("Invoice")]["tags" := JArr([JStr("a"), JNum(2.0)])]), isIsoDate)
         == Verdict(false, "All items in 'tags' must be strings")
  {
    var fields := Invoice["summary" := JStr("Invoice")]["tags" := JArr([JStr("a"), JNum(2.0)])];
    assert KeysAndDatePass(fields, isIsoDate);
    TagsNotStringsRejected(fields, isIsoDate, 1);
  }

  lemma InvoiceAccepted(isIsoDate: string -> bool)
    requires isIsoDate("2024-05-01")
    ensures Validate(JObj(Invoice["summary" := JStr("Invoice")]), isIsoDate) == Verdict(true, "JSON structure is valid")
  {
    assert CheckKeys(Invoice["summary" := JStr("Invoice")], RequiredKeys).None?;
  }
}
