/**
  The calculator screen: the keypad state machine over the label text, the
  pending tokens (`calculatingHistory`) and the finished calculations.  The
  number formatter is supplied from outside as a parsing function and a
  formatting function; UIKit is left out.
 */
module Screen {
  import opened Wrappers
  import opened Operations
  import opened Evaluation
  import opened Storage

  /** The label shown after a failed evaluation. */
  const ErrorText: string := "Ошибка"

  /** A key of the digit pad: one decimal digit or the comma. */
  predicate IsKeypadKey(key: string)
  {
    |key| == 1 && (key[0] == ',' || '0' <= key[0] <= '9')
  }

  /** How many commas a text holds. */
  function Commas(s: string): nat
  {
    multiset(s)[',']
  }

  /** The label never shows a zero in front of another digit. */
  predicate NoLeadingZero(s: string)
  {
    !(|s| >= 2 && s[0] == '0' && s[1] != ',')
  }

  /** A label the digit pad can produce: one comma at most, no leading zero. */
  predicate WellTyped(s: string)
  {
    Commas(s) <= 1 && NoLeadingZero(s)
  }

  /**
    The label after a digit or comma key: a second comma is ignored, a lone
    "0" is replaced by anything but a comma, otherwise the key is appended.
   */
  function KeyedLabel(text: string, key: string): (r: string)
    ensures key != "," ==> |r| >= |key| && r[|r| - |key|..] == key
    ensures key == "," ==> ',' in r
    ensures text != "0" || key == "," ==> text <= r
  {
    if key == "," && ',' in text then text
    else if text == "0" && key != "," then key
    else text + key
  }

  /** Each keypad key keeps the label well-formed. */
  lemma KeyKeepsLabelWellTyped(text: string, key: string)
    requires WellTyped(text) && IsKeypadKey(key)
    ensures WellTyped(KeyedLabel(text, key))
  {
  }

  /** The label after a run of key presses. */
  function TypeKeys(text: string, keys: seq<string>): string
    decreases |keys|
  {
    if keys == [] then text else TypeKeys(KeyedLabel(text, keys[0]), keys[1..])
  }

  /**
    Starting from a well-formed label, such as the reset label "0", any run
    of keypad presses leaves at most one comma and no leading zero.
   */
  lemma {:induction false} TypingKeepsLabelWellTyped(text: string, keys: seq<string>)
    requires WellTyped(text)
    requires forall i :: 0 <= i < |keys| ==> IsKeypadKey(keys[i])
    ensures WellTyped(TypeKeys(text, keys))
    decreases |keys|
  {
    if keys != [] {
      KeyKeepsLabelWellTyped(text, keys[0]);
      TypingKeepsLabelWellTyped(KeyedLabel(text, keys[0]), keys[1..]);
    }
  }

  /** Pending tokens between presses: (number, operation) pairs, so always of even length. */
  predicate Pending(h: seq<HistoryItem>)
    decreases |h|
  {
    h == [] || (|h| >= 2 && h[0].Number? && h[1].Op? && Pending(h[2..]))
  }

  /** An operation key appends one more (number, operation) pair. */
  lemma {:induction false} PendingSnoc(h: seq<HistoryItem>, n: real, op: Operation)
    requires Pending(h)
    ensures Pending(h + [Number(n), Op(op)])
    decreases |h|
  {
    var s := h + [Number(n), Op(op)];
    if h == [] {
      assert s[2..] == [];
    } else {
      PendingSnoc(h[2..], n, op);
      assert s[2..] == h[2..] + [Number(n), Op(op)];
    }
  }

  /** Pending tokens closed by the label's number form a well-formed expression. */
  lemma {:induction false} PendingClosesToExpression(h: seq<HistoryItem>, n: real)
    requires Pending(h)
    ensures Alternating(h + [Number(n)])
    decreases |h|
  {
    var e := h + [Number(n)];
    if h == [] {
      assert e[1..] == [];
    } else {
      var rest := h[2..] + [Number(n)];
      PendingClosesToExpression(h[2..], n);
      assert e[1..][2..] == rest[1..];
      assert e[1..][1] == rest[0];
    }
  }

  class ViewController {
    /** The text of the display label. */
    var labelText: string
    /** The tokens entered since the last "=" or clear. */
    var calculatingHistory: seq<HistoryItem>
    /** The finished calculations shown in the history list. */
    var calculations: seq<Calculation>

    const storage: HistoryStorage
    /** The ru_RU number formatter's parsing direction; `None` when the text is not a number. */
    const parseNumber: string -> Option<real>
    /** The ru_RU number formatter's printing direction. */
    const formatNumber: real -> string

    ghost predicate Valid()
      reads this
    {
      Pending(calculatingHistory)
    }

    /**
      The controller once its view has loaded: the label reset, no pending
      tokens, and the calculations loaded from the store.
     */
    constructor (defaults: map<string, Json>, parseNumber: string -> Option<real>, formatNumber: real -> string)
      ensures Valid() && fresh(storage)
      ensures storage.defaults == defaults
      ensures this.parseNumber == parseNumber && this.formatNumber == formatNumber
      ensures labelText == "0" && calculatingHistory == []
      ensures HistoryKey in defaults && DecodeHistory(defaults[HistoryKey]).Success?
        ==> calculations == DecodeHistory(defaults[HistoryKey]).value
      ensures !(HistoryKey in defaults && DecodeHistory(defaults[HistoryKey]).Success?) ==> calculations == []
    {
      var s := new HistoryStorage(defaults);
      var loaded := s.LoadHistory();
      storage := s;
      this.parseNumber := parseNumber;
      this.formatNumber := formatNumber;
      labelText := "0";
      calculatingHistory := [];
      calculations := loaded;
    }

    /** Puts "0" back on the display. */
    method ResetTextLabel()
      modifies this
      ensures labelText == "0"
      ensures calculatingHistory == old(calculatingHistory) && calculations == old(calculations)
    {
      labelText := "0";
    }

    /** A digit or comma key; `title` is the button's title, if it has one. */
    method ButtonPressed(title: Option<string>)
      requires Valid()
      modifies this
      ensures Valid()
      ensures labelText == (if title.Some? then KeyedLabel(old(labelText), title.value) else old(labelText))
      ensures calculatingHistory == old(calculatingHistory) && calculations == old(calculations)
      ensures WellTyped(old(labelText)) && title.Some? && IsKeypadKey(title.value) ==> WellTyped(labelText)
    {
      if title.None? {
        return;
      }
      var key := title.value;
      labelText := KeyedLabel(labelText, key);
      if WellTyped(old(labelText)) && IsKeypadKey(key) {
        KeyKeepsLabelWellTyped(old(labelText), key);
      }
    }

    /**
      An operation key: when the title is an operation symbol and the label
      parses, the label's number and the operation are appended and the label
      is reset; otherwise nothing changes.
     */
    method OperationButtonPressed(title: Option<string>)
      requires Valid()
      modifies this
      ensures Valid()
      ensures var op := if title.Some? then ParseOperation(title.value) else None;
        var n := parseNumber(old(labelText));
        if op.Some? && n.Some? then
          calculatingHistory == old(calculatingHistory) + [Number(n.value), Op(op.value)] && labelText == "0"
        else
          calculatingHistory == old(calculatingHistory) && labelText == old(labelText)
      ensures calculations == old(calculations)
    {
      if title.None? {
        return;
      }
      var operation := ParseOperation(title.value);
      if operation.None? {
        return;
      }
      var number := parseNumber(labelText);
      if number.None? {
        return;
      }
      calculatingHistory := calculatingHistory + [Number(number.value), Op(operation.value)];
      PendingSnoc(old(calculatingHistory), number.value, operation.value);
      ResetTextLabel();
    }

    /** The clear key: drops the pending tokens and resets the label. */
    method ClearButtonPressed()
      requires Valid()
      modifies this
      ensures Valid()
      ensures calculatingHistory == [] && labelText == "0" && calculations == old(calculations)
    {
      calculatingHistory := [];
      ResetTextLabel();
    }

    /**
      `calculate()`: the strictly left-to-right walk over the pending tokens.
      The list must not be empty (its first element is read unconditionally).
     */
    method Calculate() returns (r: Result<real, CalculationError>)
      requires |calculatingHistory| > 0
      ensures r == Evaluate(calculatingHistory)
    {
      var h := calculatingHistory;
      if !h[0].Number? {
        return Success(0.0);
      }
      var current := h[0].value;
      var index := 1;
      while index < |h| - 1
        invariant 1 <= index <= |h|
        invariant Walk(current, h[index..]) == Evaluate(h)
      {
        if !(h[index].Op? && h[index + 1].Number?) {
          break;
        }
        assert StartsWithStep(h[index..]) && h[index..][2..] == h[index + 2..];
        var step := Apply(h[index].op, current, h[index + 1].value);
        if step.Failure? {
          return Failure(step.error);
        }
        current := step.value;
        index := index + 2;
      }
      return Success(current);
    }

    /**
      The "=" key.  When the label parses, its number closes the expression,
      which is evaluated left to right; a success shows the formatted result,
      records the calculation and stores the whole list; a failure (exactly a
      division by zero) shows the error text and records nothing.  Either way
      the pending tokens are dropped.  When the label does not parse, nothing
      changes.
     */
    method CalculateButtonPressed()
      requires Valid()
      modifies this, storage
      ensures Valid()
      ensures parseNumber(old(labelText)).None? ==>
        && labelText == old(labelText)
        && calculatingHistory == old(calculatingHistory)
        && calculations == old(calculations)
        && storage.defaults == old(storage.defaults)
      ensures parseNumber(old(labelText)).Some? ==>
        var e := old(calculatingHistory) + [Number(parseNumber(old(labelText)).value)];
        && Alternating(e)
        && calculatingHistory == []
        && (LeftToRight(e).Failure? <==> DividesByZero(e))
        && (LeftToRight(e).Success? ==>
              && labelText == formatNumber(LeftToRight(e).value)
              && calculations == old(calculations) + [Calculation(e, LeftToRight(e).value)]
              && storage.defaults == old(storage.defaults)[HistoryKey := EncodeHistory(calculations)]
              && DecodeHistory(storage.defaults[HistoryKey]) == Success(calculations))
        && (LeftToRight(e).Failure? ==>
              && labelText == ErrorText
              && calculations == old(calculations)
              && storage.defaults == old(storage.defaults))
    {
      var number := parseNumber(labelText);
      if number.None? {
        return;
      }
      PendingClosesToExpression(calculatingHistory, number.value);
      calculatingHistory := calculatingHistory + [Number(number.value)];
      var e := calculatingHistory;
      EvaluateIsLeftToRight(e);
      LeftToRightFailsIffDivisionByZero(e);
      var result := Calculate();
      if result.Success? {
        labelText := formatNumber(result.value);
        calculations := calculations + [Calculation(calculatingHistory, result.value)];
        storage.SetHistory(calculations);
      } else {
        labelText := ErrorText;
      }
      calculatingHistory := [];
    }
  }
}
