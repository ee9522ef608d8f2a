/** chapter5/exercises/3: `prefixer` returns a closure that captures its
    prefix and puts it, and a space, in front of any string. */
module Prefixer {

  const Missing: string := "%!s(MISSING)"

  /** Walks the format, replacing each `%s` by the next argument, or by
      Go's "%!s(MISSING)" when the arguments have run out, and copying
      every other character; the second component is the arguments the
      format did not use, always a suffix of the arguments. */
  function Expand(format: string, args: seq<string>): (r: (string, seq<string>))
    ensures |r.1| <= |args|
    decreases |format|
  {
    if format == [] then ([], args)
    else if |format| >= 2 && format[0] == '%' && format[1] == 's' then
      if args == [] then
        var e := Expand(format[2..], []);
        (Missing + e.0, e.1)
      else
        var e := Expand(format[2..], args[1..]);
        (args[0] + e.0, e.1)
    else
      var e := Expand(format[1..], args);
      ([format[0]] + e.0, e.1)
  }

  /** The arguments a format does not use are the last ones: `%s` takes
      them strictly in order. */
  lemma {:induction false} ExpandUnusedSuffix(format: string, args: seq<string>)
    ensures var rest := Expand(format, args).1;
            rest == args[|args| - |rest|..]
    decreases |format|
  {
    if format == [] {
    } else if |format| >= 2 && format[0] == '%' && format[1] == 's' {
      if args != [] {
        ExpandUnusedSuffix(format[2..], args[1..]);
        var rest := Expand(format[2..], args[1..]).1;
        assert args[1..][|args[1..]| - |rest|..] == args[|args| - |rest|..];
      } else {
        ExpandUnusedSuffix(format[2..], []);
      }
    } else {
      ExpandUnusedSuffix(format[1..], args);
    }
  }

  /** Each unused argument as `string=value`, separated by ", ". */
  function ListedArgs(rest: seq<string>): (r: string)
    requires rest != []
  {
    if |rest| == 1 then "string=" + rest[0]
    else "string=" + rest[0] + ", " + ListedArgs(rest[1..])
  }

  /** Go's report of unused arguments: nothing when every argument was
      used, otherwise "%!(EXTRA " followed by the listed arguments and ")". */
  function Extra(rest: seq<string>): (r: string)
    ensures r == [] <==> rest == []
  {
    if rest == [] then [] else "%!(EXTRA " + ListedArgs(rest) + ")"
  }

  /** `fmt.Sprintf` restricted to the `%s` verb: the expanded format,
      followed by the report of the arguments it did not use. */
  function Sprintf(format: string, args: seq<string>): (r: string)
  {
    var e := Expand(format, args);
    e.0 + Extra(e.1)
  }

  /** A `%s` at the head of the format takes the next argument, or the
      missing-argument marker when there is none, and the rest of the
      format is formatted with the remaining arguments. */
  lemma SprintfVerb(format: string, arg: string, args: seq<string>)
    ensures Sprintf("%s" + format, [arg] + args) == arg + Sprintf(format, args)
    ensures Sprintf("%s" + format, []) == Missing + Sprintf(format, [])
  {
    var f := "%s" + format;
    assert f[0] == '%' && f[1] == 's' && f[2..] == format;
    assert ([arg] + args)[0] == arg && ([arg] + args)[1..] == args;
    var e := Expand(format, args);
    assert Expand(f, [arg] + args) == (arg + e.0, e.1);
    var m := Expand(format, []);
    assert Expand(f, []) == (Missing + m.0, m.1);
  }

  /** Any other character at the head of the format is copied and uses
      no argument. */
  lemma SprintfChar(c: char, format: string, args: seq<string>)
    requires c != '%'
    ensures Sprintf([c] + format, args) == [c] + Sprintf(format, args)
  {
    assert ([c] + format)[1..] == format;
    var e := Expand(format, args);
    assert Expand([c] + format, args) == ([c] + e.0, e.1);
  }

  /** A format without a `%` uses no argument: it is copied unchanged, and
      every argument is reported as extra. */
  lemma {:induction false} ExpandPlain(format: string, args: seq<string>)
    requires '%' !in format
    ensures Expand(format, args) == (format, args)
    decreases |format|
  {
    if format != [] {
      assert format == [format[0]] + format[1..];
      ExpandPlain(format[1..], args);
    }
  }

  /** A format without a `%` is copied unchanged, followed by Go's report
      of the arguments, all of them unused. */
  lemma SprintfPlain(format: string, args: seq<string>)
    requires '%' !in format
    ensures Sprintf(format, args) == format + Extra(args)
    ensures args == [] ==> Sprintf(format, args) == format
  {
    ExpandPlain(format, args);
  }

  /** `fmt.Sprintf("hi", "guys")` is "hi%!(EXTRA string=guys)". */
  lemma SprintfExtraArgument()
    ensures Sprintf("hi", ["guys"]) == "hi%!(EXTRA string=guys)"
  {
    SprintfPlain("hi", ["guys"]);
  }

  /** `prefixer(prefix)`: the closure `func(s string) string`. */
  function Prefixer(prefix: string): string -> string
  {
    s => Sprintf("%s %s", [prefix, s])
  }

  /** The Sprintf form is the commented-out concatenation form
      `prefix + " " + s`: the result is the prefix, a space and the string,
      so its length is |prefix| + 1 + |s| and it starts with the prefix. */
  lemma PrefixerConcat(prefix: string, s: string)
    ensures Prefixer(prefix)(s) == prefix + " " + s
    ensures |Prefixer(prefix)(s)| == |prefix| + 1 + |s|
    ensures Prefixer(prefix)(s)[..|prefix|] == prefix
  {
    assert "%s %s" == "%s" + " %s" && [prefix, s] == [prefix] + [s];
    SprintfVerb(" %s", prefix, [s]);
    assert " %s" == [' '] + "%s";
    SprintfChar(' ', "%s", [s]);
    assert "%s" == "%s" + [] && [s] == [s] + [];
    SprintfVerb([], s, []);
  }

  /** `main`: `helloPrefix("world")` is "hello world". */
  lemma HelloWorld()
    ensures Prefixer("hello")("world") == "hello world"
  {
    PrefixerConcat("hello", "world");
  }
}
