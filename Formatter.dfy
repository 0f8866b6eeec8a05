/**
 * `String.format` for format strings whose only conversion is `%s`: each `%s`,
 * read left to right, is replaced by the next argument, verbatim (an argument is
 * never scanned for conversions itself), and arguments beyond the last `%s` are
 * ignored. When the arguments run out the result is `None`, where Java throws a
 * `MissingFormatArgumentException`.
 */
module Formatter {
  import opened Wrappers

  /** Is there a `%s` conversion at position `i` of `fmt`? */
  predicate HoleAt(fmt: string, i: nat) {
    i + 1 < |fmt| && fmt[i] == '%' && fmt[i + 1] == 's'
  }

  /** The number of `%s` conversions in `fmt`, scanned as `Format` scans it. */
  function Holes(fmt: string): nat {
    if |fmt| == 0 then 0
    else if HoleAt(fmt, 0) then 1 + Holes(fmt[2..])
    else Holes(fmt[1..])
  }

  /** Two formatted parts side by side; a failure of either is a failure. */
  function Join(x: Option<string>, y: Option<string>): Option<string> {
    if x.Some? && y.Some? then Some(x.value + y.value) else None
  }

  function Format(fmt: string, args: seq<string>): Option<string>
  {
    if |fmt| == 0 then Some("")
    else if HoleAt(fmt, 0) then
      if |args| == 0 then None else Join(Some(args[0]), Format(fmt[2..], args[1..]))
    else Join(Some([fmt[0]]), Format(fmt[1..], args))
  }

  /** Formatting succeeds exactly when there is an argument for every conversion. */
  lemma {:induction false} FormatDefined(fmt: string, args: seq<string>)
    ensures Format(fmt, args).Some? <==> Holes(fmt) <= |args|
    decreases |fmt|
  {
    if |fmt| == 0 {
    } else if HoleAt(fmt, 0) {
      if |args| > 0 {
        FormatDefined(fmt[2..], args[1..]);
      }
    } else {
      FormatDefined(fmt[1..], args);
    }
  }

  /** A format string that does not end in `%` can be formatted piecewise: the
      second part takes the arguments the first part leaves over. */
  lemma {:induction false} FormatConcat(a: string, b: string, args: seq<string>)
    requires a == [] || a[|a| - 1] != '%'
    ensures Holes(a + b) == Holes(a) + Holes(b)
    ensures Format(a + b, args) ==
      Join(Format(a, args), if Holes(a) <= |args| then Format(b, args[Holes(a)..]) else None)
    decreases |a|
  {
    if a == [] {
      assert a + b == b;
      assert args[0..] == args;
      assert Format(a, args) == Some("");
      match Format(b, args)
      case None =>
      case Some(v) => assert "" + v == v;
    } else if HoleAt(a, 0) {
      assert HoleAt(a + b, 0);
      assert (a + b)[2..] == a[2..] + b;
      FormatConcat(a[2..], b, if |args| > 0 then args[1..] else []);
      if |args| > 0 {
        if Holes(a) <= |args| {
          assert args[1..][Holes(a) - 1..] == args[Holes(a)..];
        }
        FormatDefined(a[2..], args[1..]);
        JoinAssoc(Some(args[0]), Format(a[2..], args[1..]), if Holes(a) <= |args| then Format(b, args[Holes(a)..]) else None);
      } else {
        FormatDefined(a, args);
      }
    } else {
      assert !HoleAt(a + b, 0) && (a + b)[0] == a[0];
      assert (a + b)[1..] == a[1..] + b;
      FormatConcat(a[1..], b, args);
      JoinAssoc(Some([a[0]]), Format(a[1..], args), if Holes(a) <= |args| then Format(b, args[Holes(a)..]) else None);
    }
  }

  lemma JoinAssoc(x: Option<string>, y: Option<string>, z: Option<string>)
    ensures Join(Join(x, y), z) == Join(x, Join(y, z))
  {
    if x.Some? && y.Some? && z.Some? {
      assert x.value + y.value + z.value == x.value + (y.value + z.value);
    }
  }

  /** Text without a `%` formats to itself and takes no argument. */
  lemma {:induction false} FormatPlain(lit: string, args: seq<string>)
    requires '%' !in lit
    ensures Holes(lit) == 0 && Format(lit, args) == Some(lit)
    decreases |lit|
  {
    if lit != [] {
      assert lit[0] in lit && !HoleAt(lit, 0);
      assert forall c :: c in lit[1..] ==> c in lit;
      FormatPlain(lit[1..], args);
      assert [lit[0]] + lit[1..] == lit;
    }
  }

  /** A single conversion is replaced by the first argument. */
  lemma FormatConversion(args: seq<string>)
    requires |args| > 0
    ensures Holes("%s") == 1 && Format("%s", args) == Some(args[0])
  {
    assert HoleAt("%s", 0) && "%s"[2..] == "";
    assert args[0] + "" == args[0];
  }

  /** `FormatConcat` for two parts already known to format. */
  lemma FormatAppend(a: string, b: string, args: seq<string>, va: string, vb: string)
    requires a == [] || a[|a| - 1] != '%'
    requires Holes(a) <= |args| && Format(a, args) == Some(va)
    requires Format(b, args[Holes(a)..]) == Some(vb)
    ensures Holes(a + b) == Holes(a) + Holes(b)
    ensures Format(a + b, args) == Some(va + vb)
  {
    FormatConcat(a, b, args);
  }

  /** One conversion between two plain texts takes the first argument. */
  lemma FormatBetween(left: string, right: string, args: seq<string>)
    requires '%' !in left && '%' !in right && |args| > 0
    ensures Holes(left + "%s" + right) == 1
    ensures Format(left + "%s" + right, args) == Some(left + args[0] + right)
  {
    FormatPlain(left, args);
    FormatConversion(args);
    assert args[0..] == args;
    FormatAppend(left, "%s", args, left, args[0]);
    FormatPlain(right, args[1..]);
    FormatAppend(left + "%s", right, args, left + args[0], right);
  }

  /** Appending plain text to a formatted prefix appends it to the result. */
  lemma AppendText(a: string, lit: string, args: seq<string>, va: string)
    requires a == [] || a[|a| - 1] != '%'
    requires Holes(a) <= |args| && Format(a, args) == Some(va)
    requires '%' !in lit
    ensures Holes(a + lit) == Holes(a)
    ensures Format(a + lit, args) == Some(va + lit)
  {
    FormatPlain(lit, args[Holes(a)..]);
    FormatAppend(a, lit, args, va, lit);
  }

  /** Appending a conversion to a formatted prefix appends the next unused argument. */
  lemma AppendConversion(a: string, args: seq<string>, va: string)
    requires a == [] || a[|a| - 1] != '%'
    requires Holes(a) < |args| && Format(a, args) == Some(va)
    ensures Holes(a + "%s") == Holes(a) + 1
    ensures Format(a + "%s", args) == Some(va + args[Holes(a)])
  {
    FormatConversion(args[Holes(a)..]);
    FormatAppend(a, "%s", args, va, args[Holes(a)]);
  }
}
