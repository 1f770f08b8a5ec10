/**
  The calculator core: four fields edited by the keypad handlers and an
  `equal` step that applies the pending operator.  The operands are parsed
  with `float()` and the result is turned back into display text; both
  conversions are parameters (`Parse`, `Format`), and the arithmetic is exact
  on `real`.
 */
module Calculator {
  import opened Wrappers
  import opened Text

  /** `float(text)`: `None` where Python raises `ValueError`. */
  type Parse = string -> Option<real>

  /** The text a result is displayed as. */
  type Format = real -> string

  const MaxDigits: nat := 9
  const ErrorText: string := "Error"

  /** The number of decimal points in a display text. */
  function Dots(s: string): nat {
    if s == [] then 0 else Dots(s[..|s| - 1]) + (if s[|s| - 1] == '.' then 1 else 0)
  }

  lemma DotsAppend(a: string, b: string)
    ensures Dots(a + b) == Dots(a) + Dots(b)
    decreases |b|
  {
    if b != [] {
      assert (a + b)[..|a + b| - 1] == a + b[..|b| - 1];
      assert (a + b)[|a + b| - 1] == b[|b| - 1];
      DotsAppend(a, b[..|b| - 1]);
    } else {
      assert a + b == a;
    }
  }

  lemma DotsNone(s: string)
    requires '.' !in s
    ensures Dots(s) == 0
  {
    if s != [] {
      DotsNone(s[..|s| - 1]);
    }
  }

  lemma DotsSome(s: string)
    requires '.' in s
    ensures Dots(s) > 0
  {
    if s[|s| - 1] != '.' {
      DotsSome(s[..|s| - 1]);
    }
  }

  // ---------------------------------------------------------------------
  // The arithmetic

  function Add(a: real, b: real): real {
    a + b
  }

  function Subtract(a: real, b: real): real {
    a - b
  }

  function Multiply(a: real, b: real): real {
    a * b
  }

  /** `divide(a, b)`: `None` where it raises `ZeroDivisionError`. */
  function Divide(a: real, b: real): (r: Option<real>)
    ensures r.None? <==> b == 0.0
    ensures r.Some? ==> r.value * b == a
  {
    if b == 0.0 then None else Some(a / b)
  }

  /** The result `equal` computes for an operator; any other operator yields the second operand. */
  function Apply(op: string, a: real, b: real): (r: Option<real>)
    ensures r.None? <==> op == "÷" && b == 0.0
    ensures op !in {"+", "-", "×", "÷"} ==> r == Some(b)
  {
    if op == "+" then Some(Add(a, b))
    else if op == "-" then Some(Subtract(a, b))
    else if op == "×" then Some(Multiply(a, b))
    else if op == "÷" then Divide(a, b)
    else Some(b)
  }

  /** `toggle_sign` on a display text: drops a leading `-`, else prefixes one unless the text is `0`. */
  function ToggleSign(c: string): (r: string)
    ensures c == "0" ==> r == c
    ensures c != "0" ==> if StartsWith(c, "-") then "-" + r == c else r == "-" + c
  {
    assert c == "0" ==> c[0] != '-';
    if StartsWith(c, "-") then c[1..]
    else if c != "0" then "-" + c
    else c
  }

  /**
    Toggling twice restores every text except `-0`, which becomes `0` for
    good, and texts that start with two minus signs, which lose both.
   */
  lemma ToggleTwice(c: string)
    ensures ToggleSign(ToggleSign(c)) == c <==> c != "-0" && !StartsWith(c, "--")
  {
    if StartsWith(c, "-") {
      var t := c[1..];
      assert c == "-" + t;
      if t == "0" {
        assert c == "-0";
        assert ToggleSign(ToggleSign(c)) == "0";
      } else if StartsWith(t, "-") {
        assert StartsWith(c, "--");
        assert |ToggleSign(ToggleSign(c))| == |c| - 2;
      } else {
        assert |c| < 2 || c[1] == t[0];
        assert !StartsWith(c, "--");
        assert ToggleSign(t) == "-" + t;
      }
    } else if c != "0" {
      assert ("-" + c)[1..] == c;
      assert !StartsWith(c, "--");
    } else {
      assert !StartsWith(c, "--");
    }
  }

  // ---------------------------------------------------------------------
  // The state and its transitions

  /**
    `current_number`, `stored_number`, `last_operation` and
    `reset_next_input`.
   */
  datatype CalcState = CalcState(current: string, stored: Option<string>, lastOp: Option<string>, resetNext: bool)
  {
    /** `input_number(number)`: replace after an operator or a lone `0`, else append below the cap. */
    function InputNumber(number: string): (r: CalcState)
      ensures r.stored == stored && r.lastOp == lastOp && !r.resetNext
      ensures resetNext || current == "0" ==> r.current == number
      ensures !resetNext && current != "0" && |current| < MaxDigits ==> r.current == current + number
      ensures !resetNext && current != "0" && |current| >= MaxDigits ==> r == this
    {
      if resetNext then this.(current := number, resetNext := false)
      else if current == "0" then this.(current := number)
      else if |current| < MaxDigits then this.(current := current + number)
      else this
    }

    /** `input_decimal()`: `0.` after an operator, else one `.` at most. */
    function InputDecimal(): (r: CalcState)
      ensures '.' in r.current && !r.resetNext
      ensures r.stored == stored && r.lastOp == lastOp
      ensures resetNext ==> r.current == "0."
      ensures !resetNext && '.' !in current ==> r.current == current + "."
      ensures !resetNext && '.' in current ==> r == this
    {
      if resetNext then this.(current := "0.", resetNext := false)
      else if '.' !in current then
        assert (current + ".")[|current|] == '.';
        this.(current := current + ".")
      else this
    }

    function Toggle(): (r: CalcState)
      ensures r.stored == stored && r.lastOp == lastOp && r.resetNext == resetNext
    {
      this.(current := ToggleSign(current))
    }

    /** `equal()`: applies the pending operator to the stored and the current operand. */
    function Equal(parse: Parse, format: Format): (r: CalcState)
      ensures lastOp.None? || stored.None? ==> r == this
      ensures r == this || r == this.(current := ErrorText) ||
              (r.stored == Some(r.current) && r.lastOp.None? && r.resetNext)
    {
      if lastOp.None? || stored.None? then this
      else match (parse(stored.value), parse(current))
        case (Some(a), Some(b)) =>
          (match Apply(lastOp.value, a, b)
           case Some(v) => CalcState(format(v), Some(format(v)), None, true)
           case None => this.(current := ErrorText))
        case _ => this.(current := ErrorText)
    }

    /**
      `set_operation(op)`: evaluates the pending operator only when an operand
      is stored and the user has typed since, then stores the current text
      and waits for the next operand.
     */
    function SetOperation(op: string, parse: Parse, format: Format): (r: CalcState)
      ensures r.lastOp == Some(op) && r.resetNext
      ensures stored.None? || resetNext ==> r == this.(stored := Some(current), lastOp := Some(op), resetNext := true)
    {
      var pending := if stored.Some? && !resetNext then Equal(parse, format) else this;
      pending.(stored := Some(pending.current), lastOp := Some(op), resetNext := true)
    }
  }

  /** The state after `reset()`. */
  const Initial: CalcState := CalcState("0", None, None, false)

  /** With `reset_next_input` clear, pressing `.` twice is pressing it once. */
  lemma DecimalIdempotent(s: CalcState)
    requires !s.resetNext
    ensures s.InputDecimal().InputDecimal() == s.InputDecimal()
  {
  }

  /**
    No transition typed on the keypad creates a second decimal point: digits,
    `.` and the sign keep the display at one point at most.
   */
  lemma KeypadKeepsOneDot(s: CalcState, digit: char)
    requires Dots(s.current) <= 1 && '0' <= digit <= '9'
    ensures Dots(s.InputNumber([digit]).current) <= 1
    ensures Dots(s.InputDecimal().current) <= 1
    ensures Dots(s.Toggle().current) <= 1
  {
    DigitKeepsOneDot(s, digit);
    DecimalKeepsOneDot(s);
    SignKeepsOneDot(s);
  }

  lemma DigitKeepsOneDot(s: CalcState, digit: char)
    requires Dots(s.current) <= 1 && '0' <= digit <= '9'
    ensures Dots(s.InputNumber([digit]).current) <= 1
  {
    DotsAppend(s.current, [digit]);
    assert Dots([digit]) == Dots([]) + 0;
  }

  lemma DecimalKeepsOneDot(s: CalcState)
    requires Dots(s.current) <= 1
    ensures Dots(s.InputDecimal().current) <= 1
  {
    var c := s.current;
    if !s.resetNext && '.' !in c {
      DotsNone(c);
      DotsAppend(c, ".");
    }
    assert Dots("0.") == 1 by { DotsAppend("0", "."); }
  }

  lemma SignKeepsOneDot(s: CalcState)
    requires Dots(s.current) <= 1
    ensures Dots(s.Toggle().current) <= 1
  {
    var c := s.current;
    if StartsWith(c, "-") {
      assert c == "-" + c[1..];
      DotsAppend("-", c[1..]);
    } else {
      DotsAppend("-", c);
    }
  }

  /** The state after pressing the digit keys of `ds` one at a time. */
  function TypeDigits(s: CalcState, ds: string): CalcState
    decreases |ds|
  {
    if ds == [] then s else TypeDigits(s, ds[..|ds| - 1]).InputNumber([ds[|ds| - 1]])
  }

  /**
    Starting a new operand (after an operator, or on a lone `0`), typing up
    to nine keys that do not start with `0` shows exactly the keys typed.
   */
  lemma {:induction false} TypedNumber(s: CalcState, ds: string)
    requires s.resetNext || s.current == "0"
    requires 0 < |ds| <= MaxDigits && ds[0] != '0'
    ensures TypeDigits(s, ds) == s.(current := ds, resetNext := false)
  {
    var init := ds[..|ds| - 1];
    if init == [] {
      assert ds == [ds[0]];
    } else {
      TypedNumber(s, init);
      var t := TypeDigits(s, init);
      assert t.current[0] == ds[0];
      assert init + [ds[|ds| - 1]] == ds;
    }
  }

  /**
    A digit key never makes a display of at most nine characters longer
    than nine.  The cap is on digits only: see `SignAndPointPassCap`.
   */
  lemma DigitCap(s: CalcState, digit: char)
    requires |s.current| <= MaxDigits
    ensures |s.InputNumber([digit]).current| <= MaxDigits
  {
  }

  /** The sign key and the decimal key take a full nine-digit display to ten characters. */
  lemma SignAndPointPassCap()
    ensures var s := CalcState("123456789", None, None, false);
      && |s.current| == MaxDigits
      && |s.Toggle().current| == MaxDigits + 1
      && |s.InputDecimal().current| == MaxDigits + 1
  {
    var s := CalcState("123456789", None, None, false);
    assert s.current[..1] == "1";
    assert !StartsWith(s.current, "-");
    assert s.InputDecimal().current == "123456789.";
  }

  /** Dividing by zero shows `Error` and changes nothing else. */
  lemma DivideByZeroShowsError(s: CalcState, parse: Parse, format: Format)
    requires s.lastOp == Some("÷") && s.stored.Some?
    requires parse(s.stored.value).Some? && parse(s.current) == Some(0.0)
    ensures s.Equal(parse, format) == s.(current := ErrorText)
  {
  }

  /** A successful `equal` shows the formatted result, stores it, clears the operator and waits for input. */
  lemma EqualSucceeds(s: CalcState, parse: Parse, format: Format, a: real, b: real)
    requires s.lastOp.Some? && s.stored.Some?
    requires parse(s.stored.value) == Some(a) && parse(s.current) == Some(b)
    requires !(s.lastOp.value == "÷" && b == 0.0)
    ensures var r := s.Equal(parse, format);
      exists v :: Apply(s.lastOp.value, a, b) == Some(v) && r == CalcState(format(v), Some(format(v)), None, true)
  {
    var v := Apply(s.lastOp.value, a, b).value;
    assert Apply(s.lastOp.value, a, b) == Some(v);
  }

  /**
    What `equal` stores for each operator once both operands parse: the
    sum, the difference, the product, the quotient.
   */
  lemma EqualComputes(s: CalcState, parse: Parse, format: Format, a: real, b: real)
    requires s.lastOp.Some? && s.stored.Some?
    requires parse(s.stored.value) == Some(a) && parse(s.current) == Some(b)
    ensures s.lastOp.value == "+" ==> s.Equal(parse, format).stored == Some(format(a + b))
    ensures s.lastOp.value == "-" ==> s.Equal(parse, format).stored == Some(format(a - b))
    ensures s.lastOp.value == "×" ==> s.Equal(parse, format).stored == Some(format(a * b))
    ensures s.lastOp.value == "÷" && b != 0.0 ==> s.Equal(parse, format).stored == Some(format(a / b))
  {
  }

  /** Subtraction undoes addition and division undoes multiplication by a non-zero operand. */
  lemma ApplyInverses(a: real, b: real)
    ensures Apply("-", Apply("+", a, b).value, b) == Some(a)
    ensures b != 0.0 ==> Apply("÷", Apply("×", a, b).value, b) == Some(a)
  {
    if b != 0.0 {
      assert b / b == 1.0;
      assert (a * b) / b == a * (b / b);
      assert "×" != "+" && "×" != "-";
      assert Apply("×", a, b) == Some(Multiply(a, b));
      assert Multiply(a, b) == a * b;
      assert "÷" != "+" && "÷" != "-" && "÷" != "×";
      assert Apply("÷", a * b, b) == Divide(a * b, b) == Some((a * b) / b);
      assert (a * b) / b == a;
    }
  }

  /** An operand that `float()` rejects shows `Error` and changes nothing else. */
  lemma EqualRejectsOperand(s: CalcState, parse: Parse, format: Format)
    requires s.lastOp.Some? && s.stored.Some?
    requires parse(s.stored.value).None? || parse(s.current).None?
    ensures s.Equal(parse, format) == s.(current := ErrorText)
  {
  }

  /**
    Chained operators: pressing an operator after typing the second operand
    first evaluates the pending one, so the stored operand is the result.
   */
  lemma ChainedOperator(s: CalcState, op: string, parse: Parse, format: Format, a: real, b: real, v: real)
    requires s.lastOp.Some? && s.stored.Some? && !s.resetNext
    requires parse(s.stored.value) == Some(a) && parse(s.current) == Some(b)
    requires Apply(s.lastOp.value, a, b) == Some(v)
    ensures s.SetOperation(op, parse, format) == CalcState(format(v), Some(format(v)), Some(op), true)
  {
  }

  /** The `Calculator` object, its fields updated in place by each handler. */
  class Calculator {
    var current: string
    var stored: Option<string>
    var lastOp: Option<string>
    var resetNext: bool
    const parse: Parse
    const format: Format

    function State(): CalcState
      reads this
    {
      CalcState(current, stored, lastOp, resetNext)
    }

    constructor (parse: Parse, format: Format)
      ensures State() == Initial && this.parse == parse && this.format == format
    {
      this.parse := parse;
      this.format := format;
      current := "0";
      stored := None;
      lastOp := None;
      resetNext := false;
    }

    method Reset()
      modifies this
      ensures State() == Initial
    {
      current := "0";
      stored := None;
      lastOp := None;
      resetNext := false;
    }

    method ToggleSign()
      modifies this
      ensures State() == old(State()).Toggle()
    {
      if StartsWith(current, "-") {
        current := current[1..];
      } else if current != "0" {
        current := "-" + current;
      }
    }

    method InputNumber(number: string)
      modifies this
      ensures State() == old(State()).InputNumber(number)
    {
      if resetNext {
        current := number;
        resetNext := false;
      } else if current == "0" {
        current := number;
      } else if |current| < MaxDigits {
        current := current + number;
      }
    }

    method InputDecimal()
      modifies this
      ensures State() == old(State()).InputDecimal()
    {
      if resetNext {
        current := "0.";
        resetNext := false;
      } else if '.' !in current {
        current := current + ".";
      }
    }

    method SetOperation(operation: string)
      modifies this
      ensures State() == old(State()).SetOperation(operation, parse, format)
    {
      if stored.Some? && !resetNext {
        Equal();
      }
      lastOp := Some(operation);
      stored := Some(current);
      resetNext := true;
    }

    method Equal()
      modifies this
      ensures State() == old(State()).Equal(parse, format)
    {
      if lastOp.None? || stored.None? {
        return;
      }
      var num1 := parse(stored.value);
      var num2 := parse(current);
      if num1.None? || num2.None? {
        current := ErrorText;
        return;
      }
      var result := Apply(lastOp.value, num1.value, num2.value);
      if result.None? {
        current := ErrorText;
        return;
      }
      current := format(result.value);
      stored := Some(current);
      lastOp := None;
      resetNext := true;
    }
  }
}
