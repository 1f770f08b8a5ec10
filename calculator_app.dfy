/**
  The state logic of the `CalculatorApp` window: the same four fields and
  keypad rules as the `Calculator` core, a `negate` written differently, and
  a `calculate` that handles a zero divisor itself and only catches
  `ValueError`, so with an operator it does not know an exception escapes
  the handler before any field is assigned.
 */
module CalculatorApp {
  import opened Wrappers
  import opened Text
  import opened Calculator

  /** `negate()` on a display text: nothing for `0`, else toggle a leading `-`. */
  function NegateText(c: string): string {
    if c != "0" then (if StartsWith(c, "-") then c[1..] else "-" + c) else c
  }

  /** Written differently, `negate` and `toggle_sign` agree on every text. */
  lemma NegateIsToggle(c: string)
    ensures NegateText(c) == ToggleSign(c)
  {
    if c == "0" {
      assert c[..1] == "0";
    }
  }

  /** The four operators the window's buttons send. */
  predicate KnownOp(op: string) {
    op in {"+", "-", "×", "÷"}
  }

  /**
    How a handler ends: it finishes with a new state, or an exception
    escapes it. Every escape below happens before the handler assigns any
    field, so the window keeps the state it had when the button was pressed.
   */
  datatype Outcome = Done(state: CalcState) | Raised

  /** The outcome's state: the new one, or the old one when the handler raised. */
  function After(s: CalcState, o: Outcome): CalcState {
    if o.Done? then o.state else s
  }

  /**
    `calculate()`: a no-op without an operator or stored operand; `Error` for
    a zero divisor or an operand `float()` rejects. With any other operator
    no branch assigns `result`, and reading it raises `UnboundLocalError`,
    which the `ValueError` handler does not catch.
   */
  function Calculated(s: CalcState, parse: Parse, format: Format): (r: Outcome)
    ensures r.Raised? <==>
      (s.lastOp.Some? && s.stored.Some? && !KnownOp(s.lastOp.value)
       && parse(s.stored.value).Some? && parse(s.current).Some?)
    ensures s.lastOp.None? || s.stored.None? ==> r == Done(s)
    ensures s.lastOp.Some? && KnownOp(s.lastOp.value) ==> r == Done(s.Equal(parse, format))
  {
    if s.lastOp.None? || s.stored.None? then Done(s)
    else match (parse(s.stored.value), parse(s.current))
      case (Some(a), Some(b)) =>
        if !KnownOp(s.lastOp.value) then Raised
        else (match Apply(s.lastOp.value, a, b)
          case Some(v) => Done(CalcState(format(v), Some(format(v)), None, true))
          case None => Done(s.(current := ErrorText)))
      case _ => Done(s.(current := ErrorText))
  }

  /**
    `operation_pressed(op)`: evaluates pending work first only when an
    operand is stored and the flag is clear; an exception from that step
    ends the press before the operator is recorded.
   */
  function OperationApplied(s: CalcState, op: string, parse: Parse, format: Format): (r: Outcome)
    ensures r.Raised? <==> s.stored.Some? && !s.resetNext && Calculated(s, parse, format).Raised?
    ensures r.Done? ==> r.state.lastOp == Some(op) && r.state.resetNext
    ensures s.stored.None? || s.resetNext ==> r == Done(s.(stored := Some(s.current), lastOp := Some(op), resetNext := true))
    ensures s.lastOp.Some? && KnownOp(s.lastOp.value) ==> r == Done(s.SetOperation(op, parse, format))
  {
    var pending := if s.stored.Some? && !s.resetNext then Calculated(s, parse, format) else Done(s);
    match pending
    case Raised => Raised
    case Done(t) => Done(t.(stored := Some(t.current), lastOp := Some(op), resetNext := true))
  }

  /** A zero divisor shows `Error` and leaves the operator, the stored operand and the flag alone. */
  lemma DivideByZeroKeepsPending(s: CalcState, parse: Parse, format: Format)
    requires s.lastOp == Some("÷") && s.stored.Some?
    requires parse(s.stored.value).Some? && parse(s.current) == Some(0.0)
    ensures Calculated(s, parse, format) == Done(s.(current := ErrorText))
  {
  }

  /** After a successful `calculate` the result is stored, the operator cleared and the flag set. */
  lemma CalculateSucceeds(s: CalcState, parse: Parse, format: Format)
    requires s.lastOp.Some? && KnownOp(s.lastOp.value) && s.stored.Some?
    requires parse(s.stored.value).Some? && parse(s.current).Some?
    requires !(s.lastOp.value == "÷" && parse(s.current) == Some(0.0))
    ensures var r := Calculated(s, parse, format);
      r.Done? && r.state.stored == Some(r.state.current) && r.state.lastOp.None? && r.state.resetNext
  {
  }

  /**
    Where the two versions part: with an operator outside the four, the core
    shows the second operand as the result, while the window's `calculate`
    raises, and so does an operator press that has to evaluate first.
   */
  lemma UnknownOperatorDiffers(s: CalcState, op: string, parse: Parse, format: Format, b: real)
    requires s.lastOp.Some? && !KnownOp(s.lastOp.value) && s.stored.Some?
    requires parse(s.stored.value).Some? && parse(s.current) == Some(b)
    ensures Calculated(s, parse, format) == Raised
    ensures !s.resetNext ==> OperationApplied(s, op, parse, format) == Raised
    ensures s.Equal(parse, format) == CalcState(format(b), Some(format(b)), None, true)
  {
  }

  /** The `CalculatorApp` window's calculator fields and handlers. */
  class CalculatorApp {
    var current: string
    var stored: Option<string>
    var lastOp: Option<string>
    var resetNext: bool
    const parse: Parse
    const format: Format

    function State(): CalcState
      reads this
    {
      CalcState(current, stored, lastOp, resetNext)
    }

    constructor (parse: Parse, format: Format)
      ensures State() == Initial && this.parse == parse && this.format == format
    {
      this.parse := parse;
      this.format := format;
      current := "0";
      stored := None;
      lastOp := None;
      resetNext := false;
    }

    method NumberPressed(number: string)
      modifies this
      ensures State() == old(State()).InputNumber(number)
    {
      if resetNext {
        current := number;
        resetNext := false;
      } else if current == "0" {
        current := number;
      } else if |current| < MaxDigits {
        current := current + number;
      }
    }

    method DecimalPressed()
      modifies this
      ensures State() == old(State()).InputDecimal()
    {
      if resetNext {
        current := "0.";
        resetNext := false;
      } else if '.' !in current {
        current := current + ".";
      }
    }

    method OperationPressed(operation: string) returns (raised: bool)
      modifies this
      ensures raised <==> OperationApplied(old(State()), operation, parse, format).Raised?
      ensures State() == After(old(State()), OperationApplied(old(State()), operation, parse, format))
    {
      raised := false;
      if stored.Some? && !resetNext {
        raised := Calculate();
        if raised {
          return;
        }
      }
      lastOp := Some(operation);
      stored := Some(current);
      resetNext := true;
    }

    method ClearAll()
      modifies this
      ensures State() == Initial
    {
      current := "0";
      stored := None;
      lastOp := None;
      resetNext := false;
    }

    method Negate()
      modifies this
      ensures State() == old(State()).Toggle()
    {
      NegateIsToggle(current);
      if current != "0" {
        if StartsWith(current, "-") {
          current := current[1..];
        } else {
          current := "-" + current;
        }
      }
    }

    method Calculate() returns (raised: bool)
      modifies this
      ensures raised <==> Calculated(old(State()), parse, format).Raised?
      ensures State() == After(old(State()), Calculated(old(State()), parse, format))
    {
      raised := false;
      if lastOp.None? || stored.None? {
        return;
      }
      var num1 := parse(stored.value);
      var num2 := parse(current);
      if num1.None? || num2.None? {
        current := ErrorText;
        return;
      }
      if !KnownOp(lastOp.value) {
        raised := true;
        return;
      }
      var result := Apply(lastOp.value, num1.value, num2.value);
      if result.None? {
        current := ErrorText;
        return;
      }
      current := format(result.value);
      stored := Some(current);
      lastOp := None;
      resetNext := true;
    }
  }
}
