/**
  Persistence of finished calculations.  A token is written as a keyed
  container holding exactly one of the keys `number` and `operation`; a
  calculation as a container with `expression` and `result`; the history as
  an array of calculations, stored under one fixed key of the user-defaults
  store.  The byte-level JSON format is abstracted to a decoded value tree.
 */
module Storage {
  import opened Wrappers
  import opened Operations

  /** A finished calculation: the tokens that were evaluated and the value obtained. */
  datatype Calculation = Calculation(expression: seq<HistoryItem>, result: real)

  /** A JSON value as the keyed and unkeyed decoding containers see it. */
  datatype Json =
    | JNull
    | JNumber(num: real)
    | JString(str: string)
    | JArray(elems: seq<Json>)
    | JObject(fields: map<string, Json>)

  /**
    Why decoding failed: the token's own `ItemNotFound`, or any error the
    JSON decoder raises by itself (missing key, null, wrong type).
   */
  datatype DecodeError = ItemNotFound | Malformed

  const NumberKey: string := "number"
  const OperationKey: string := "operation"
  const ExpressionKey: string := "expression"
  const ResultKey: string := "result"

  /** The user-defaults key the history is stored under (spelling kept as is). */
  const HistoryKey: string := "calculatioistoryKey"

  /** `decodeIfPresent` sees a value only when the key is there and not null. */
  predicate Present(f: map<string, Json>, key: string)
  {
    key in f && f[key] != JNull
  }

  /** Encodes a token: one key, chosen by the token's kind, and decoding gives the token back. */
  function EncodeItem(t: HistoryItem): (j: Json)
    ensures j.JObject? && |j.fields| == 1
    ensures NumberKey in j.fields <==> t.Number?
    ensures OperationKey in j.fields <==> t.Op?
    ensures DecodeItem(j) == Success(t)
  {
    match t
    case Number(v) =>
      assert map[NumberKey := JNumber(v)].Keys == {NumberKey};
      JObject(map[NumberKey := JNumber(v)])
    case Op(op) =>
      assert map[OperationKey := JString(RawValue(op))].Keys == {OperationKey};
      JObject(map[OperationKey := JString(RawValue(op))])
  }

  /**
    Decodes a token: `number` is tried first and wins whenever it is there;
    then `operation` through the symbol table; otherwise `ItemNotFound`.
   */
  function DecodeItem(j: Json): (r: Result<HistoryItem, DecodeError>)
    ensures j.JObject? && Present(j.fields, NumberKey) && j.fields[NumberKey].JNumber?
      ==> r == Success(Number(j.fields[NumberKey].num))
    ensures r == Failure(ItemNotFound) <==>
      && j.JObject?
      && !Present(j.fields, NumberKey)
      && (!Present(j.fields, OperationKey)
          || (j.fields[OperationKey].JString? && j.fields[OperationKey].str !in Symbols))
    ensures r.Success? && r.value.Number? ==>
      j.JObject? && NumberKey in j.fields && j.fields[NumberKey] == JNumber(r.value.value)
    ensures r.Success? && r.value.Op? ==>
      j.JObject? && !Present(j.fields, NumberKey) && j.fields[OperationKey] == JString(RawValue(r.value.op))
    ensures j.JObject? && !Present(j.fields, NumberKey) && Present(j.fields, OperationKey)
      && j.fields[OperationKey].JString? && j.fields[OperationKey].str in Symbols
      ==> r.Success? && r.value.Op? && RawValue(r.value.op) == j.fields[OperationKey].str
    ensures !j.JObject? ==> r == Failure(Malformed)
    ensures j.JObject? && Present(j.fields, NumberKey) && !j.fields[NumberKey].JNumber? ==> r == Failure(Malformed)
  {
    match j
    case JObject(f) =>
      if Present(f, NumberKey) then
        match f[NumberKey]
        case JNumber(v) => Success(Number(v))
        case _ => Failure(Malformed)
      else if Present(f, OperationKey) then
        match f[OperationKey]
        case JString(s) =>
          (match ParseOperation(s)
           case Some(op) => Success(Op(op))
           case None => Failure(ItemNotFound))
        case _ => Failure(Malformed)
      else
        Failure(ItemNotFound)
    case _ => Failure(Malformed)
  }

  /**
    Decodes every element of an array in order; the first element that fails
    fails the whole array, with that element's error.
   */
  function DecodeAll<T>(s: seq<Json>, decode: Json -> Result<T, DecodeError>): (r: Result<seq<T>, DecodeError>)
    ensures r.Success? ==> |r.value| == |s| && forall i :: 0 <= i < |s| ==> decode(s[i]) == Success(r.value[i])
    ensures r.Failure? <==> exists i :: 0 <= i < |s| && decode(s[i]).Failure?
    ensures r.Failure? ==> exists i :: 0 <= i < |s| && decode(s[i]) == Failure(r.error)
    decreases |s|
  {
    if s == [] then Success([])
    else
      match decode(s[0])
      case Failure(e) => Failure(e)
      case Success(x) =>
        match DecodeAll(s[1..], decode)
        case Failure(e) =>
          var i :| 0 <= i < |s[1..]| && decode(s[1..][i]) == Failure(e);
          assert decode(s[i + 1]) == Failure(e);
          Failure(e)
        case Success(xs) =>
          assert forall i :: 1 <= i < |s| ==> decode(s[i]) == decode(s[1..][i - 1]);
          Success([x] + xs)
  }

  /** The token array of an expression. */
  function EncodeExpression(items: seq<HistoryItem>): (j: Json)
    ensures j.JArray? && |j.elems| == |items|
  {
    JArray(seq(|items|, i requires 0 <= i < |items| => EncodeItem(items[i])))
  }

  /** A calculation's container: its token array under `expression`, its value under `result`. */
  function EncodeCalculation(c: Calculation): (j: Json)
    ensures j.JObject? && j.fields.Keys == {ExpressionKey, ResultKey}
  {
    JObject(map[ExpressionKey := EncodeExpression(c.expression), ResultKey := JNumber(c.result)])
  }

  /**
    Decodes a calculation: both keys are required, the expression is decoded
    first, and one undecodable token fails the calculation.
   */
  function DecodeCalculation(j: Json): (r: Result<Calculation, DecodeError>)
    ensures j.JObject? && (ExpressionKey !in j.fields || ResultKey !in j.fields) ==> r.Failure?
    ensures j.JObject? && ExpressionKey in j.fields && j.fields[ExpressionKey].JArray?
      && (exists k :: 0 <= k < |j.fields[ExpressionKey].elems|
            && DecodeItem(j.fields[ExpressionKey].elems[k]).Failure?)
      ==> r.Failure?
    ensures r.Success? ==> j.JObject? && j.fields[ResultKey] == JNumber(r.value.result)
    ensures r.Success? ==>
      && j.JObject? && ExpressionKey in j.fields && j.fields[ExpressionKey].JArray?
      && |r.value.expression| == |j.fields[ExpressionKey].elems|
      && forall k :: 0 <= k < |r.value.expression| ==>
           DecodeItem(j.fields[ExpressionKey].elems[k]) == Success(r.value.expression[k])
    ensures j.JObject? && ExpressionKey in j.fields && j.fields[ExpressionKey].JArray?
      && ResultKey in j.fields && j.fields[ResultKey].JNumber?
      && (forall k :: 0 <= k < |j.fields[ExpressionKey].elems| ==>
            DecodeItem(j.fields[ExpressionKey].elems[k]).Success?)
      ==> r.Success?
  {
    match j
    case JObject(f) =>
      if ExpressionKey in f && f[ExpressionKey].JArray? then
        match DecodeAll(f[ExpressionKey].elems, DecodeItem)
        case Failure(e) => Failure(e)
        case Success(items) =>
          if ResultKey in f && f[ResultKey].JNumber? then Success(Calculation(items, f[ResultKey].num))
          else Failure(Malformed)
      else
        Failure(Malformed)
    case _ => Failure(Malformed)
  }

  /** The stored form of a history: an array of calculation containers. */
  function EncodeHistory(h: seq<Calculation>): (j: Json)
    ensures j.JArray? && |j.elems| == |h|
  {
    JArray(seq(|h|, i requires 0 <= i < |h| => EncodeCalculation(h[i])))
  }

  /** Decodes a stored history; one calculation that fails fails the whole list. */
  function DecodeHistory(j: Json): (r: Result<seq<Calculation>, DecodeError>)
    ensures j.JArray? && (exists i :: 0 <= i < |j.elems| && DecodeCalculation(j.elems[i]).Failure?)
      ==> r.Failure?
    ensures r.Success? ==> j.JArray? && |r.value| == |j.elems|
    ensures r.Success? ==> forall i :: 0 <= i < |j.elems| ==> DecodeCalculation(j.elems[i]) == Success(r.value[i])
    ensures r.Failure? <==> !j.JArray? || exists i :: 0 <= i < |j.elems| && DecodeCalculation(j.elems[i]).Failure?
  {
    match j
    case JArray(s) => DecodeAll(s, DecodeCalculation)
    case _ => Failure(Malformed)
  }

  /** Every expression survives encoding and decoding. */
  lemma ExpressionRoundTrip(items: seq<HistoryItem>)
    ensures DecodeAll(EncodeExpression(items).elems, DecodeItem) == Success(items)
  {
    var s := EncodeExpression(items).elems;
    forall i | 0 <= i < |s| ensures DecodeItem(s[i]) == Success(items[i]) {
      assert s[i] == EncodeItem(items[i]);
    }
    var r := DecodeAll(s, DecodeItem);
    assert r.Success?;
    assert r.value == items;
  }

  /** Every calculation survives encoding and decoding. */
  lemma CalculationRoundTrip(c: Calculation)
    ensures DecodeCalculation(EncodeCalculation(c)) == Success(c)
  {
    ExpressionRoundTrip(c.expression);
  }

  /** Every history survives encoding and decoding. */
  lemma HistoryRoundTrip(h: seq<Calculation>)
    ensures DecodeHistory(EncodeHistory(h)) == Success(h)
  {
    var s := EncodeHistory(h).elems;
    forall i | 0 <= i < |s| ensures DecodeCalculation(s[i]) == Success(h[i]) {
      assert s[i] == EncodeCalculation(h[i]);
      CalculationRoundTrip(h[i]);
    }
    var r := DecodeAll(s, DecodeCalculation);
    assert r.Success?;
    assert r.value == h;
  }

  /**
    One token anywhere in the stored history that does not decode discards
    the whole stored list.
   */
  lemma OneBadTokenFailsHistory(calcs: seq<Json>, i: nat, k: nat)
    requires i < |calcs| && calcs[i].JObject?
    requires ExpressionKey in calcs[i].fields && calcs[i].fields[ExpressionKey].JArray?
    requires k < |calcs[i].fields[ExpressionKey].elems|
    requires DecodeItem(calcs[i].fields[ExpressionKey].elems[k]).Failure?
    ensures DecodeHistory(JArray(calcs)).Failure?
  {
  }

  /** The persistent store: the user-defaults dictionary, one value per key. */
  class HistoryStorage {
    var defaults: map<string, Json>

    constructor (defaults: map<string, Json>)
      ensures this.defaults == defaults
    {
      this.defaults := defaults;
    }

    /**
      `setHistory`: writes the encoded list under the history key, leaving
      every other key alone; what is written decodes back to the list.
     */
    method SetHistory(calculations: seq<Calculation>)
      modifies this
      ensures defaults == old(defaults)[HistoryKey := EncodeHistory(calculations)]
      ensures DecodeHistory(defaults[HistoryKey]) == Success(calculations)
    {
      defaults := defaults[HistoryKey := EncodeHistory(calculations)];
      HistoryRoundTrip(calculations);
    }

    /**
      `loadHistory`: the decoded list stored under the history key, or the
      empty list when nothing is stored there or it does not decode.
     */
    method LoadHistory() returns (h: seq<Calculation>)
      ensures HistoryKey !in defaults ==> h == []
      ensures HistoryKey in defaults && DecodeHistory(defaults[HistoryKey]).Failure? ==> h == []
      ensures HistoryKey in defaults && DecodeHistory(defaults[HistoryKey]).Success?
        ==> h == DecodeHistory(defaults[HistoryKey]).value
    {
      if HistoryKey in defaults {
        var decoded := DecodeHistory(defaults[HistoryKey]);
        h := if decoded.Success? then decoded.value else [];
      } else {
        h := [];
      }
    }
  }
}
