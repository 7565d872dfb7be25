/**
 * The `$`-placeholder printers of the `supp` namespace: `printf` and
 * `printfln`.  Each is a variadic template that walks the format string,
 * copies ordinary characters, and on the first `$` prints the next value and
 * recurses on the rest of the format with the remaining values; the
 * non-template overloads (one argument, the format alone) are the base cases.
 *
 * The model returns the text written to standard output.  Every value is
 * represented by the text its `operator<<` writes.
 */
module Support {

  /** Number of occurrences of `c` in `s`. */
  function Count(c: char, s: string): (n: nat)
  {
    if s == [] then 0 else (if s[0] == c then 1 else 0) + Count(c, s[1..])
  }

  /** `s` holds no placeholder. */
  predicate NoPlaceholder(s: string)
  {
    forall i :: 0 <= i < |s| ==> s[i] != '$'
  }

  /**
   * `supp::printf(format, values...)`: with no values left, the base case
   * writes the format verbatim; otherwise the walk copies characters until
   * the first `$`, writes the first value there, and recurses.
   */
  function Printf(format: string, values: seq<string>): (r: string)
    ensures NoPlaceholder(format) ==> r == format
  {
    if values == [] then format
    else if format == [] then []
    else if format[0] == '$' then values[0] + Printf(format[1..], values[1..])
    else [format[0]] + Printf(format[1..], values)
  }

  /**
   * `supp::printfln(format, values...)`: the same walk, but its base case
   * also ends the line; a walk that reaches the end of the format with values
   * still unused writes no newline.
   */
  function Printfln(format: string, values: seq<string>): (r: string)
    ensures |values| <= Count('$', format) ==> |r| > 0 && r[|r| - 1] == '\n'
  {
    if values == [] then format + "\n"
    else if format == [] then []
    else if format[0] == '$' then values[0] + Printfln(format[1..], values[1..])
    else [format[0]] + Printfln(format[1..], values)
  }

  /** The base case writes the format verbatim, `$` included. */
  lemma PrintfNoValues(format: string)
    ensures Printf(format, []) == format
    ensures Printfln(format, []) == format + "\n"
  {
  }

  /**
   * The first `$` of the format is replaced by the first value; the text
   * before it is copied unchanged and the rest is formatted with the
   * remaining values.
   */
  lemma {:induction false} PrintfFirstPlaceholder(prefix: string, rest: string, v: string, vs: seq<string>)
    requires NoPlaceholder(prefix)
    ensures Printf(prefix + "$" + rest, [v] + vs) == prefix + v + Printf(rest, vs)
  {
    if prefix == [] {
      assert prefix + "$" + rest == "$" + rest;
      assert ("$" + rest)[1..] == rest;
    } else {
      assert (prefix + "$" + rest)[0] == prefix[0];
      assert (prefix + "$" + rest)[1..] == prefix[1..] + "$" + rest;
      PrintfFirstPlaceholder(prefix[1..], rest, v, vs);
    }
  }

  /** Values beyond the number of placeholders are never written. */
  lemma {:induction false} PrintfDropsSurplus(format: string, values: seq<string>)
    requires Count('$', format) <= |values|
    ensures Printf(format, values) == Printf(format, values[..Count('$', format)])
  {
    var c := Count('$', format);
    if format != [] && values != [] {
      var rest := format[1..];
      assert format == [format[0]] + rest;
      if format[0] == '$' {
        assert c == 1 + Count('$', rest);
        PrintfDropsSurplus(rest, values[1..]);
        assert Printf(format, values) == values[0] + Printf(rest, values[1..]);
        assert values[..c][0] == values[0];
        assert values[..c][1..] == values[1..][..c - 1];
        assert Printf(format, values[..c]) == values[..c][0] + Printf(rest, values[..c][1..]);
      } else {
        assert c == Count('$', rest);
        PrintfDropsSurplus(rest, values);
        assert Printf(format, values) == [format[0]] + Printf(rest, values);
        if c == 0 {
          assert values[..c] == [];
          assert Printf(rest, values[..c]) == rest;
        } else {
          assert Printf(format, values[..c]) == [format[0]] + Printf(rest, values[..c]);
        }
      }
    }
  }

  /**
   * `printfln` writes what `printf` writes, followed by a newline exactly
   * when the values run out, i.e. when there are at least as many `$` as
   * values.
   */
  lemma {:induction false} PrintflnIsPrintfPlusNewline(format: string, values: seq<string>)
    ensures Printfln(format, values)
         == Printf(format, values) + (if Count('$', format) >= |values| then "\n" else "")
  {
    if values == [] {
    } else if format == [] {
    } else if format[0] == '$' {
      PrintflnIsPrintfPlusNewline(format[1..], values[1..]);
    } else {
      PrintflnIsPrintfPlusNewline(format[1..], values);
    }
  }
}
