# Tinkoff Calculator: the evaluator, the keypad and the history store in Dafny

This project models the logic of the Tinkoff Calculator iOS app:

- the four **operations** (`+ - x /`), their one-character raw values and the
  throwing `calculate`, which fails only on an exact-zero divisor
  (`operations.dfy`);
- the **evaluator** `calculate()`, which reduces the token list strictly left
  to right with no precedence, returns 0 when the first token is an operation,
  stops silently at the first break in the number/operation alternation, and
  fails as a whole on a division by zero (`evaluation.dfy`). `Evaluate` and
  `Walk` state what the loop computes; `LeftToRight` is an independent
  reference reading of a well-formed expression, `((e1 op e2) op e3) ...`;
- the **keypad state machine** of the view controller: the label text, the
  pending tokens `calculatingHistory` and the finished `calculations`, changed
  by the digit, operation, clear and "=" keys (`screen.dfy`). `KeyedLabel`
  states what a digit or comma key does to the label;
- the **token codec and history store**: a token is a keyed container holding
  exactly one of `number` and `operation`; a calculation holds `expression`
  and `result`; the list is stored under the fixed key `"calculatioistoryKey"`
  and read back as the empty list when it is absent or does not decode
  (`storage.dfy`).

`Double` is modelled as `real`. The number formatter (locale `ru_RU`) is
supplied to the view controller as two functions: `parseNumber` from text to an
optional number, and `formatNumber` from a number to text. The user-defaults
store is a map from key to a decoded JSON value (`Json`).

Three behaviours the model takes from the code as written:

- The "=" key returns before clearing the pending tokens when the label does
  not parse as a number (ViewController.swift:107-112). The tokens are cleared
  only on the paths that evaluate.
- `calculate()` on an empty token list reads index 0 and traps. So `Evaluate`
  and `Calculate` require a non-empty list. The "=" key always appends a
  number first, so it meets this requirement. The model does not invent an
  `EmptyExpression` error.
- `Calculation` is the two-field record of Storage.swift:10-13. The `date:`
  argument at ViewController.swift:120 is not part of it.

## Model

| member | source | states |
|---|---|---|
| Operations.RawValue | TinkoffCalculator/ViewController.swift:14-18 | every operation's raw value is one of the four symbols |
| Operations.ParseOperation | TinkoffCalculator/ViewController.swift:14-18 | `Operation(rawValue:)` accepts exactly `+ - x /`; what it returns has that raw value; and it returns the operation whose raw value the text is (parse of raw value is identity) |
| Operations.Apply | TinkoffCalculator/ViewController.swift:20-34 | fails iff the operation is divide and the divisor is exactly 0; otherwise the result is the one the inverse operation maps back to the first operand (sum minus b, difference plus b, product over b, quotient times b) |
| Evaluation.Walk | TinkoffCalculator/ViewController.swift:146-154 | when the next two tokens are not an (operation, number) pair the walk returns the accumulator unchanged; it fails only if some operation in the tokens is a division followed by the number 0 |
| Evaluation.Evaluate | TinkoffCalculator/ViewController.swift:141-157 | a leading operation gives 0; a single token never fails; a failure means some division in the list has the divisor 0. EvaluateReadsLongestPrefix and LeadingOperationGivesZero give its full meaning, and ViewController.Calculate is proved equal to it |
| Evaluation.ConsumedStopsAtBreak | TinkoffCalculator/ViewController.swift:146-152 | the tokens the walk takes form a run of (operation, number) pairs, and what follows them does not start with such a pair |
| Evaluation.WalkSnoc | TinkoffCalculator/ViewController.swift:146-154 | adding one more pair to a run of pairs applies that operation to the earlier result, and an earlier failure stays a failure |
| Evaluation.EvaluateIsLeftToRight | TinkoffCalculator/ViewController.swift:141-157 | on every well-formed expression `calculate()` equals the left-to-right reading, with no precedence and no partial result after a failure |
| Evaluation.WalkStopsAtBreak | TinkoffCalculator/ViewController.swift:146-152 | a tail that does not start with an (operation, number) pair does not change the walk's result |
| Evaluation.EvaluateIgnoresBrokenTail | TinkoffCalculator/ViewController.swift:141-157 | a well-formed expression followed by a broken tail evaluates to the expression's left-to-right value |
| Evaluation.TrailingOperatorIgnored | TinkoffCalculator/ViewController.swift:146-152 | a trailing operator with no operand after it is ignored, not an error |
| Evaluation.EvaluateReadsLongestPrefix | TinkoffCalculator/ViewController.swift:141-157 | any list that starts with a number evaluates as the left-to-right value of its longest well-formed prefix, and nothing after that prefix matters |
| Evaluation.LeftToRightFailsIffDivisionByZero | TinkoffCalculator/ViewController.swift:141-157 | a well-formed expression fails iff one of its divisions has the divisor 0 (both directions) |
| Evaluation.DividesByZeroSplit | TinkoffCalculator/ViewController.swift:146-153 | a well-formed expression divides by zero iff the part before its last pair does or its last pair is a division by 0 |
| Evaluation.EvaluateFailsIffDivisionByZero | TinkoffCalculator/ViewController.swift:141-157 | the same iff, for the evaluator itself |
| Evaluation.LeadingOperationGivesZero | TinkoffCalculator/ViewController.swift:142 | a list whose first token is an operation evaluates to 0 whatever follows |
| Evaluation.Examples | TinkoffCalculator/ViewController.swift:141-157 | [3] gives 3; [2,+,3,x,4] gives 20; [6,/,0] fails with dividedByZero; [5,+] gives 5 |
| Storage.EncodeItem | TinkoffCalculator/Storage/Storage.swift:30-40 | a token encodes to a container with exactly one key, `number` for a number and `operation` for an operation, and decoding it gives the token back |
| Storage.DecodeItem | TinkoffCalculator/Storage/Storage.swift:42-56 | a `number` key holding a number wins even when `operation` is also there; a decoded number is the one stored under `number`; a decoded operation came from its raw value, and a known symbol under `operation` (with no `number`) always decodes; `ItemNotFound` iff neither key has a value or the `operation` text is not one of the four symbols (both directions); a non-object, or a `number` value that is not a number, fails as malformed |
| Storage.DecodeAll | TinkoffCalculator/Storage/Storage.swift:72 | an array decodes iff every element decodes, element by element in order; on failure the error is that of a failing element |
| Storage.EncodeExpression | TinkoffCalculator/Storage/Storage.swift:15-17 | an expression encodes to an array with one element per token |
| Storage.EncodeCalculation | TinkoffCalculator/Storage/Storage.swift:10-17 | a calculation encodes to a container with exactly the keys `expression` and `result` |
| Storage.DecodeCalculation | TinkoffCalculator/Storage/Storage.swift:10-17 | decoding fails when `expression` or `result` is missing, and when any token of the expression fails; a decoded calculation's tokens are, one by one, the decoded elements of the stored `expression` array and its result is the stored number; a container whose `expression` array decodes token by token and whose `result` is a number always decodes |
| Storage.EncodeHistory | TinkoffCalculator/Storage/Storage.swift:65 | a history encodes to an array with one element per calculation |
| Storage.DecodeHistory | TinkoffCalculator/Storage/Storage.swift:72 | decoding fails iff the stored value is not an array or some calculation in it does not decode (both directions); a decoded list has one calculation per element, each the decoding of that element |
| Storage.ExpressionRoundTrip | TinkoffCalculator/Storage/Storage.swift:30-56 | decoding an encoded expression gives it back |
| Storage.CalculationRoundTrip | TinkoffCalculator/Storage/Storage.swift:10-56 | decoding an encoded calculation gives it back |
| Storage.HistoryRoundTrip | TinkoffCalculator/Storage/Storage.swift:64-76 | decoding an encoded history gives it back |
| Storage.OneBadTokenFailsHistory | TinkoffCalculator/Storage/Storage.swift:72 | one undecodable token in any stored calculation fails decoding of the whole stored list |
| Storage.HistoryStorage.constructor | TinkoffCalculator/Storage/Storage.swift:60-62 | the store starts with the given user-defaults contents |
| Storage.HistoryStorage.SetHistory | TinkoffCalculator/Storage/Storage.swift:64-68 | writes the encoded list under `"calculatioistoryKey"`, leaves every other key alone, and what it writes decodes back to the list |
| Storage.HistoryStorage.LoadHistory | TinkoffCalculator/Storage/Storage.swift:70-76 | returns `[]` when nothing is stored under the key, `[]` (never an error) when the stored value does not decode, and the decoded list otherwise |
| Screen.KeyedLabel | TinkoffCalculator/ViewController.swift:66-74 | after a non-comma key the label ends with that key; after a comma key the label holds a comma; unless the label was the lone "0", the old label is kept as a prefix. KeyKeepsLabelWellTyped and TypingKeepsLabelWellTyped prove the one-comma, no-leading-zero property |
| Screen.KeyKeepsLabelWellTyped | TinkoffCalculator/ViewController.swift:63-76 | a digit or comma key keeps the label at one comma at most and without a leading zero before a digit |
| Screen.TypingKeepsLabelWellTyped | TinkoffCalculator/ViewController.swift:63-76 | from a well-formed label such as "0", any run of digit and comma keys leaves at most one comma and no leading zero |
| Screen.PendingSnoc | TinkoffCalculator/ViewController.swift:93-94 | appending one (number, operation) pair keeps the pending tokens a run of such pairs |
| Screen.PendingClosesToExpression | TinkoffCalculator/ViewController.swift:114 | pending (number, operation) pairs closed by the label's number form a well-formed expression |
| Screen.ViewController.constructor | TinkoffCalculator/ViewController.swift:159-166 | after the view loads, the label is "0", no tokens are pending, and `calculations` is the stored history (or empty when absent or undecodable) |
| Screen.ViewController.ResetTextLabel | TinkoffCalculator/ViewController.swift:173-175 | the label becomes "0" and nothing else changes |
| Screen.ViewController.ButtonPressed | TinkoffCalculator/ViewController.swift:63-76 | no title: no change; otherwise the label follows the one-comma, replace-leading-"0" rule; tokens and calculations are unchanged; a keypad key keeps the label well-formed |
| Screen.ViewController.OperationButtonPressed | TinkoffCalculator/ViewController.swift:78-97 | an unknown symbol or an unparsable label changes nothing; otherwise exactly [number(label), operation] is appended and the label is reset to "0"; the pending tokens stay number/operation pairs of even length |
| Screen.ViewController.ClearButtonPressed | TinkoffCalculator/ViewController.swift:99-104 | pending tokens are emptied and the label is "0"; calculations are unchanged |
| Screen.ViewController.Calculate | TinkoffCalculator/ViewController.swift:141-157 | the loop over odd indices returns exactly `Evaluate` of the pending tokens |
| Screen.ViewController.CalculateButtonPressed | TinkoffCalculator/ViewController.swift:106-128 | an unparsable label changes nothing; otherwise the closed expression is well-formed and read left to right. It fails iff it divides by 0. On success the label shows the formatted result, `calculations` grows by exactly that calculation, and the list is stored so that it decodes back. On failure the label is "Ошибка" and nothing is recorded or stored. The pending tokens end up empty |

## Left out

- UIKit: outlets, `viewWillAppear`, the accessibility identifier, the storyboard navigation in `showCalculationsList`, and the history screen `TinkoffCalculator/History/CalculationsListViewController.swift` (table-view display and date headers).
- The `ru_RU` `NumberFormatter`: number parsing and result formatting are functions given to the view controller. Their locale-specific behaviour is not modelled.
- The label text being `nil`. The model's label is always a string. The source's label could only become `nil` if the formatter returned no text.
- A button without a title is modelled (as `None`); the view objects themselves are not.
- IEEE-754 behaviour of `Double` (rounding, overflow, infinities, NaN): numbers are `real`.
- The JSON byte format, `JSONEncoder`/`JSONDecoder` and `UserDefaults` are not modelled. The store is a map from key to an already-parsed JSON value. Text that is not JSON at all is not modelled. The decoder's own errors (missing key, null, wrong type) are the single error `Malformed`. `loadHistory` swallows them all anyway.
- Storage.HistoryStorage.SetHistory: the branch where encoding throws and nothing is written is not modelled, because a `real` always encodes (there is no NaN or infinity).
- The `Date()` passed at ViewController.swift:120: it is not a field of `Calculation`, and a clock is not modelled.
- The formatter's output after a successful "=": the label is then whatever `formatNumber` returns, so the label properties proved for the keypad cover key presses only.
