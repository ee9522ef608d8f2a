# Go teaching programs: a verified model of their runtime behaviour

The `learning_go` repository is a set of small, independent Go programs.
Each one shows a rule of the language: how slices share a backing array,
how maps answer a missing key, how strings are UTF-8 bytes, how integers
wrap and divide, how `switch`, `iota`, interfaces, receivers, closures and
`defer` behave. This project models the deterministic behaviour of those
programs in Dafny. It proves what each program prints, and the general
rule of the language that the program demonstrates.

The modules follow the programs and the runtime rules they rely on:

- `Runtime` (runtime.dfy): `Option`, and `Outcome` = `Ok(value)` or
  `Panic(error)` for the run-time panics the programs can hit.
- `GoInt` (goint.dfy): Go's truncating `/` and `%`, and fixed-width
  integers (`uint8`, `int32`, `int64`, `uint64`) whose arithmetic wraps
  around modulo 2^n.
- `Slices` (slices.dfy): a slice is a header `(data, offset, len, cap)`
  over a backing `array` that other headers may share. `append`, `copy`
  and index assignment are methods that write into that array.
- `SliceExamples` (slice_examples.dfy): the slice programs of chapters 3,
  4 and 6, run on that model.
- `Maps` (maps.dfy): `map[string]int` with zero-on-miss lookup, `++`,
  `delete` and `clear`, as functions on `map` and as a class whose
  methods update its `entries` field.
- `Utf8` (utf8.dfy): encoding and decoding per section 3 of RFC 3629.
  Invalid input decodes as U+FFFD and consumes one byte, as Go does.
- `GoStrings` (strings.dfy): strings as byte sequences, byte slicing,
  `[]byte` and `[]rune` conversions, range over a string, and the
  labelled-`break` search for `'z'`.
- `Strconv` (strconv.dfy): the decimal `Itoa` and `Atoi` that the
  calculator and the counters use.
- `Calculator` (calculator.dfy): the four operators, the operator table
  and the ordered checks of the calculator's main loop.
- `NamedReturn` (named_return.dfy): `divAndRemainder` and its
  named-result variant.
- `Switches` (switches.dfy): the word-length switches and the
  divisibility switch.
- `Iota` (iota.dfy): evaluation of constant blocks that use `iota`.
- `Interfaces` (interfaces.dfy): interface values as (dynamic type,
  value) pairs, `==` on them, type assertions, nil interfaces, and the
  in-place `Double` methods.
- `Receivers` (receivers.dfy): `Counter` as a value, `CounterVar` as an
  addressable variable, pointer receivers, method values and method
  expressions.
- `CallByValue` (call_by_value.dfy), `Prefixer` (prefixer.dfy),
  `Defer` (defer.dfy): parameter copies, the `prefixer` closure, and the
  `defer` stack.

Points worth noting in the code, which the model follows together with
the Go language reference:

- A simple slice expression `s[lo:hi]` may take `hi` up to `cap(s)`, not
  only up to `len(s)` (`Slices.Sub`, `Slices.SubBeyondLength`).
- In `code/chapter3/examples/strings/main.go`, `s[4:7]` is the three
  bytes `'o'`, `' '` and `0xF0`, the first byte of the globe's encoding
  (`GoStrings.HelloSlices`).
- `main` in `code/chapter5/examples/named_return/main.go` calls
  `divAndRemainder` twice; it does not call `divAndRemainderV2`
  (`NamedReturn.FiveByTwo`).

## Model

| member | source | states |
|---|---|---|
| GoInt.QuoRemLaw | code/chapter5/examples/named_return/main.go:14-15 | for y != 0, Go's quotient q and remainder r satisfy x == q*y + r and abs(r) < abs(y); r is 0 or has the sign of x; abs(q)*abs(y) <= abs(x) |
| GoInt.QuoRemUnique | code/chapter5/examples/named_return/main.go:14-15 | any q, r with x == q*y + r, abs(r) < abs(y) and r zero or of x's sign are exactly Go's quotient and remainder |
| GoInt.QuoBound | code/chapter5/exercises/1/main.go:25 | abs(x / y) <= abs(x), and strictly less when abs(y) > 1 and x != 0 |
| GoInt.RemZeroIff | code/chapter4/exercises/1and2/main.go:19-25 | Go's n % y == 0 holds exactly when the Euclidean remainder is 0 |
| GoInt.WrapUnsigned | code/chapter2/exercises/3/main.go:13-15 | the wrapped value lies in [0, m), differs from x by a multiple of m, and equals x, x - m or x + m in the matching range |
| GoInt.WrapSigned | code/chapter2/exercises/3/main.go:14 | two's-complement wrap: the result lies in [-m/2, m/2), differs from x by a multiple of m, and is x, x - m or x + m in the matching range |
| GoInt.AddUint8 | code/chapter2/exercises/3/main.go:13 | byte addition is the sum when it is below 256 and the sum minus 256 otherwise |
| GoInt.AddInt32 | code/chapter2/exercises/3/main.go:14 | int32 addition is the sum in range, the sum minus 2^32 above it and plus 2^32 below it |
| GoInt.AddUint64 | code/chapter2/exercises/3/main.go:15 | uint64 addition is the sum below 2^64 and the sum minus 2^64 otherwise |
| GoInt.OverflowExample | code/chapter2/exercises/3/main.go:7-18 | 255 + 1 as byte is 0; 2147483647 + 1 as int32 is -2147483648; 18446744073709551615 + 1 as uint64 is 0; nothing panics |
| GoInt.AddInt64 | code/chapter5/exercises/1/main.go:10 | int addition is exact when the sum fits in 64 bits and always congruent to it modulo 2^64 |
| GoInt.SubInt64 | code/chapter5/exercises/1/main.go:14 | int subtraction is exact when the difference fits and always congruent to it modulo 2^64 |
| GoInt.MulInt64 | code/chapter5/exercises/1/main.go:18 | int multiplication is exact when the product fits and always congruent to it modulo 2^64 |
| GoInt.QuoInt64 | code/chapter5/exercises/1/main.go:25 | int division truncates toward zero; MinInt64 / -1 gives MinInt64 |
| GoInt.RemInt64 | code/chapter5/examples/named_return/main.go:14 | int remainder is the truncated remainder, which always fits |
| Slices.Make | code/chapter3/examples/3/main.go:6 | make panics when len < 0 or cap < len; otherwise it gives a fresh zero-filled array with the requested len and cap |
| Slices.Literal | code/chapter3/examples/4/main.go:6 | a slice literal has len == cap == number of elements, holds them in order, over a fresh array |
| Slices.Sub | code/chapter3/exercises/1/main.go:7-9 | s[lo:hi] succeeds iff 0 <= lo <= hi <= cap(s), else panics; the result shares the array, starts lo slots later, has len hi-lo and cap cap(s)-lo |
| Slices.SubElements | code/chapter3/exercises/1/main.go:7-9 | within the length, s[lo:hi] shows exactly elements lo..hi of s |
| Slices.SubBeyondLength | code/chapter3/exercises/1/main.go:7-9 | with len(s) < hi <= cap(s), s[lo:hi] shows the backing slots past the length |
| Slices.SubFull | code/chapter3/examples/3/main.go:9-10 | s[lo:hi:max] succeeds iff 0 <= lo <= hi <= max <= cap(s); len hi-lo, cap max-lo, same array |
| Slices.SubFullElements | code/chapter3/examples/3/main.go:9-10 | s[lo:hi:max] shows elements lo..hi of s |
| Slices.Get | code/chapter7/examples/compare_interfaces/main.go:19 | s[i] succeeds iff 0 <= i < len(s) and then is element i; otherwise it panics with an index error |
| Slices.SetIndex | code/chapter6/exercises/2/main.go:7 | s[i] = v succeeds iff 0 <= i < len(s), changes exactly one backing slot, and panics without writing otherwise |
| Slices.GrowCap | code/chapter3/examples/3/main.go:19-21 | the capacity after a reallocation is at least the needed length |
| Slices.GrowByQuarter | code/chapter3/examples/3/main.go:19-21 | growing by quarters from a positive capacity reaches the needed length |
| Slices.Append | code/chapter3/examples/3/main.go:17-21 | the result holds the old elements then the items; if they fit in cap it reuses the array, keeps cap, and writes only the slots past len; otherwise it uses a fresh array with cap >= len and leaves the old array untouched |
| Slices.Copy | code/chapter3/examples/4/main.go:6-14 | copy returns min(len(dst), len(src)), overwrites exactly the first n slots of dst with src's elements, and changes no other slot and no header |
| SliceExamples.FullSliceAppends | code/chapter3/examples/3/main.go:6-26 | before the appends x, y, z are [a b c d], [a b], [c d] with caps 5, 2, 2; after them x is [a b c d x] with cap 5, y is [a b i j], z is [c d z], and y, z no longer share x's array |
| SliceExamples.FullSliceAppendsOf | code/chapter3/examples/3/main.go:6-26 | the same sequence of make, append, full slices and appends, for any element values |
| SliceExamples.CopyTruncates | code/chapter3/examples/4/main.go:6-14 | y becomes [1 2] with len 2, cap 4 and count 2; b becomes [c d f] followed by seven "" with count 3; x and a are unchanged |
| SliceExamples.OverlappingViews | code/chapter3/exercises/1/main.go:6-9 | the three views of a 5-element slice are valid, have lengths 2, 3, 2 and caps 5, 4, 2, show the right elements, and share storage slots |
| SliceExamples.AddValue | code/chapter6/examples/slices/main.go:5-8 | the local result is the caller's elements plus 6 and the caller's elements are unchanged; with spare capacity the local slice shares the caller's array, which changes only by 6 in the slot after the caller's length; without it the local slice has a fresh array and the caller's array is untouched |
| SliceExamples.PassSliceByValue | code/chapter6/examples/slices/main.go:10-17 | the caller keeps [1 2 3 4 5] with len 5 and cap 10, the local copy is [1 2 3 4 5 6], and backing slot 5 holds 6 |
| SliceExamples.UpdateSlice | code/chapter6/exercises/2/main.go:5-9 | on a non-empty slice the shared array changes only in the last element's slot, which now holds s; an empty slice panics and leaves the array untouched |
| SliceExamples.GrowSlice | code/chapter6/exercises/2/main.go:11-14 | the local result is the caller's elements plus s and the caller's elements are unchanged; with spare capacity the shared array changes only by s in the slot after the caller's length, and when len == cap it is untouched |
| SliceExamples.PassSliceToFunctions | code/chapter6/exercises/2/main.go:16-22 | the caller sees [Hello Gob Goodbye], then [Hello Gob Potato]; GrowSlice builds [Hello Gob Potato Tomato] and the caller still sees [Hello Gob Potato] |
| SliceExamples.FillNumbers | code/chapter4/exercises/1and2/main.go:11-14 | after the loop the slice holds the ten drawn numbers in order, with len 10 and cap 100 |
| Maps.Lookup | code/chapter3/examples/maps/main.go:14-20 | the comma-ok lookup reports presence exactly for keys in the map and gives the stored value, or (0, false) for a missing key |
| Maps.Assign | code/chapter3/examples/maps/main.go:9-11 | m[k] = v adds k to the keys, reads back (v, true), and leaves every other key's lookup unchanged |
| Maps.Incremented | code/chapter3/examples/maps/main.go:17 | m[k]++ stores the old value plus 1 (wrapping from the largest 64-bit int to the smallest), or 1 for a missing key, and leaves other keys unchanged |
| Maps.Deleted | code/chapter3/examples/maps/main.go:23 | delete removes k, so k reads (0, false), lowers len by one when k was present, leaves other keys unchanged, and is a no-op for a missing key |
| Maps.ThreeDistinctKeys | code/chapter3/examples/maps/main.go:9-14 | storing three distinct keys gives len 3, and each key reads back its value |
| Maps.MissingKeyReadsZero | code/chapter3/examples/maps/main.go:15-18 | a missing key reads (0, false) without being inserted; ++ on it stores 1 and raises len by one |
| Maps.AssignThenDelete | code/chapter3/examples/maps/main.go:23-24 | deleting a key just stored makes it read (0, false) and restores every other key's lookup |
| Maps.StringIntMap.constructor | code/chapter3/examples/maps/main.go:6-7 | a map made with a size hint is empty, so `Len` (len(m)) is 0 |
| Maps.StringIntMap.Get | code/chapter3/examples/maps/main.go:14-15 | m[k] is the stored value, or 0 for a missing key; the map is unchanged |
| Maps.StringIntMap.GetOk | code/chapter3/examples/maps/main.go:20 | v, ok := m[k] agrees with Lookup |
| Maps.StringIntMap.Set | code/chapter3/examples/maps/main.go:9-11 | the new entries are Assign of the old ones |
| Maps.StringIntMap.Increment | code/chapter3/examples/maps/main.go:17 | the new entries are Incremented of the old ones |
| Maps.StringIntMap.Delete | code/chapter3/examples/maps/main.go:23 | the new entries are Deleted of the old ones |
| Maps.StringIntMap.Clear | code/chapter3/examples/maps/main.go:26 | clear leaves no entries, so `Len` (len(m)) is 0 |
| Maps.StoresThenChanges | code/chapter3/examples/maps/main.go:9-24 | for any five distinct keys, the program's stores, ++ and delete give len 3, the read-backs 25, 0, 1, (0, false), and after delete len 3 with the deleted key gone and the first key still 30 |
| Maps.AgesStates | code/chapter3/examples/maps/main.go:9-24 | the same for the names Marco, Hanna, Juan, Maria and Ryan |
| Maps.AgesExample | code/chapter3/examples/maps/main.go:6-27 | the printed lengths are 0, 3, 3, 0; Juan reads 25, Maria 0 then 1, Ryan (0, false); after delete Hanna reads (0, false) and Marco (30, true) |
| Utf8.EncodeRune | code/chapter3/examples/strings/main.go:14-15 | a scalar value encodes to 1, 2, 3 or 4 bytes according to its range |
| Utf8.DecodeRune | code/chapter4/examples/loops/main.go:8 | decoding consumes 1 to 4 bytes; an ASCII byte is itself; a non-ASCII byte that consumes one byte yields U+FFFD |
| Utf8.DecodeRuneWellFormed | code/chapter4/examples/loops/main.go:8 | the decoded rune is always a scalar value, and a multi-byte decode consumed exactly that rune's encoding |
| Utf8.DecodeEncode | code/chapter3/examples/strings/main.go:14-15 | decoding the encoding of any scalar value, whatever follows it, gives the value back and consumes its encoded length |
| Utf8.DecodeFrom | code/chapter4/examples/loops/main.go:8 | range over a string yields at most one step per byte, and the first step is at the starting offset with the first decoded rune |
| Utf8.DecodeFromEncodeAll | code/chapter4/examples/loops/main.go:8 | ranging over the encoding of runes rs yields rs in order, each at the offset where its encoding starts |
| Utf8.DecodeFromCons | code/chapter4/examples/loops/main.go:8 | the next step's offset is the previous offset plus the previous rune's encoded length |
| Utf8.RunesOfEncoding | code/chapter3/examples/strings/main.go:14-15 | []rune of the encoding of rs is rs |
| GoStrings.ByteLength | code/chapter4/examples/switch/main.go:8 | len of a string counts the bytes of its UTF-8 encoding: at least one per character, and exactly one per character iff every character is ASCII |
| GoStrings.EncodeAllLengthBounds | code/chapter3/examples/strings/main.go:6-10 | encoding code points takes at least one byte each, and exactly one each iff all are below 0x80 |
| GoStrings.CafeLength | code/chapter4/examples/switch/main.go:8 | "café" has 4 characters but len 5 |
| GoStrings.CodePoints | code/chapter3/examples/strings/main.go:6 | a string literal's code points are its characters, all scalar values |
| GoStrings.ByteSlice | code/chapter3/examples/strings/main.go:7-8 | s[lo:hi] on a string succeeds iff 0 <= lo <= hi <= len(s), copies those bytes unchecked, and otherwise panics |
| GoStrings.HelloBytes | code/chapter3/examples/strings/main.go:6-10 | "Hello 🌎" is 10 bytes: six ASCII bytes then F0 9F 8C 8E |
| GoStrings.GlobeBytes | code/chapter3/examples/strings/main.go:8-12 | U+1F30E encodes as F0 9F 8C 8E |
| GoStrings.HelloSlices | code/chapter3/examples/strings/main.go:7-12 | s[4:7] is 'o', ' ', 0xF0 (3 bytes) and s[6:] is the globe's 4-byte encoding |
| GoStrings.CutRunes | code/chapter3/examples/strings/main.go:7-11 | the cut bytes 'o', ' ', 0xF0 read as runes 'o', ' ', U+FFFD |
| GoStrings.HelloRunes | code/chapter3/examples/strings/main.go:15-17 | []rune("Hello 🌎") is 7 code points ending with U+1F30E |
| GoStrings.ToBytes | code/chapter3/examples/strings/main.go:14 | []byte(s) is a fresh slice of the same bytes |
| GoStrings.ToRunes | code/chapter3/examples/strings/main.go:15 | []rune(s) is a fresh slice of the decoded runes |
| GoStrings.HelloConversions | code/chapter3/examples/strings/main.go:14-17 | the byte slice has the 10 bytes, the rune slice has 7 runes, and the bytes are the concatenated encodings of the runes |
| GoStrings.Range | code/chapter4/examples/loops/main.go:8-10 | the range loop produces exactly the (byte offset, rune) steps of Decode |
| GoStrings.DecodeAsciiPrefix | code/chapter4/examples/loops/main.go:8 | an ASCII prefix yields one step per byte at consecutive offsets, then decoding continues where the prefix ends |
| GoStrings.DecodeAscii | code/chapter4/examples/loops/main.go:8 | on ASCII text, step k is at offset k with byte k as its rune |
| GoStrings.RangeHello | code/chapter4/examples/loops/main.go:6-9 | "hello" yields offsets 0..4 with h, e, l, l, o |
| GoStrings.RangeApple | code/chapter4/examples/loops/main.go:6-9 | "apple_π!" yields offsets 0..5 for apple_, then π at 6 and ! at 8 |
| GoStrings.FirstOffsetFinds | code/chapter4/examples/loops/main.go:17-21 | the first-match search finds nothing iff no step has the rune; otherwise the step found has it and no earlier step does |
| GoStrings.FindRuneFirstStep | code/chapter4/examples/loops/main.go:17-21 | the byte-level search equals the first matching offset among the range steps |
| GoStrings.SearchZ | code/chapter4/examples/loops/main.go:14-24 | the nested loops with break outer print exactly ZSearch's lines: "No z in" for each word up to the first with a z, then "Found z at index" for that one, and nothing after |
| GoStrings.ZSearchFound | code/chapter4/examples/loops/main.go:18-20 | when a word contains z, its line is the found line and the search stops there |
| GoStrings.ZSearchNotFound | code/chapter4/examples/loops/main.go:23 | a word without z prints "No z in" and the search moves on to the next word |
| GoStrings.PotatoHasNoZ | code/chapter4/examples/loops/main.go:14-23 | "potato" contains no z |
| GoStrings.RendezvousZAt5 | code/chapter4/examples/loops/main.go:14-20 | the first z of "rendezvous" is at byte 5 |
| GoStrings.ZSearchSample | code/chapter4/examples/loops/main.go:14-24 | the program prints "No z in potato" and then "Found z at index 5" |
| Strconv.NatDigitsValue | code/chapter5/exercises/1/main.go:80 | the decimal digits of n read back as n |
| Strconv.Atoi | code/chapter5/exercises/1/main.go:56-71 | a successful parse had an optional sign followed by at least one digit and nothing else |
| Strconv.AtoiOfItoa | code/chapter5/exercises/1/main.go:56-80 | parsing the decimal text of x gives x when x fits in int and fails otherwise |
| Strconv.AtoiItoa | code/chapter5/exercises/1/main.go:56-80 | every int survives formatting and parsing |
| Strconv.AtoiOutOfRange | code/chapter5/exercises/1/main.go:56-71 | the decimal text of a number outside int does not parse |
| Strconv.AtoiRejectsWords | code/chapter5/exercises/1/main.go:44-46 | "hello" and "bye" are not numbers |
| Calculator.Add | code/chapter5/exercises/1/main.go:9-11 | add never fails; the sum is exact when it fits in int64 and otherwise wraps by 2^64 in the direction it overflowed |
| Calculator.Sub | code/chapter5/exercises/1/main.go:13-15 | sub never fails; the difference is exact when it fits in int64 and otherwise wraps by 2^64 in the direction it overflowed |
| Calculator.Mult | code/chapter5/exercises/1/main.go:17-19 | mult never fails; the product is exact when it fits and is always the int64 congruent to x * y modulo 2^64 |
| Calculator.Div | code/chapter5/exercises/1/main.go:21-26 | div fails iff y == 0, then with (0, "Cannot divide by 0"); otherwise it is x / y truncated toward zero with x == q * y + x % y, except that MinInt64 / -1 overflows to MinInt64 |
| Calculator.OverflowWraps | code/chapter5/exercises/1/main.go:9-26 | MaxInt64 + 1 is MinInt64, MinInt64 - 1 is MaxInt64, MaxInt64 * 2 is -2, and MinInt64 / -1 is MinInt64 |
| Calculator.OperatorNames | code/chapter5/exercises/1/main.go:30-35 | the operator table has exactly the keys +, -, * and / |
| Calculator.EvaluateSteps | code/chapter5/exercises/1/main.go:50-81 | checks run in order: length 3, first number, operator, second number; each failing check prints its own message |
| Calculator.EvaluateComputes | code/chapter5/exercises/1/main.go:74-80 | when every check passes, the line is the operator's error or "Result: " and the operator's value |
| Calculator.OnlyDivisionFails | code/chapter5/exercises/1/main.go:74-77 | with valid input, the division error is printed iff the operator is / and the second number is 0 |
| Calculator.Check | code/chapter5/exercises/1/main.go:51-80 | one iteration of the loop body prints Evaluate of its input |
| Calculator.Printed | code/chapter5/exercises/1/main.go:50-81 | one line per input, line i being Evaluate of input i |
| Calculator.Run | code/chapter5/exercises/1/main.go:50-81 | the loop prints one line per input, each depending only on that input, so an error never stops later inputs |
| Calculator.SampleResults | code/chapter5/exercises/1/main.go:39-42 | the four valid inputs print Result: 15, -15, 350 and 5 |
| Calculator.SampleErrors | code/chapter5/exercises/1/main.go:43-47 | the five faulty inputs print the length, first number, operator, second number and division messages |
| NamedReturn.DivAndRemainderV2 | code/chapter5/examples/named_return/main.go:18-25 | denom == 0 gives (0, 0, error) and is the only error; otherwise num == result*denom + remainder, abs(remainder) < abs(denom), and the remainder is 0 or has num's sign |
| NamedReturn.DivAndRemainder | code/chapter5/examples/named_return/main.go:8-16 | the first version returns the same triple as the named-result version for every input |
| NamedReturn.MinIntByMinusOne | code/chapter5/examples/named_return/main.go:18-25 | MinInt64 divided by -1 wraps to MinInt64 with remainder 0 and no error |
| NamedReturn.FiveByTwo | code/chapter5/examples/named_return/main.go:27-32 | both calls on (5, 2) give (2, 1, nil) |
| Switches.TagSwitch | code/chapter4/examples/switch/main.go:8-16 | lengths 1-4 are short, 5-6 nice, 7-8 quiet, and every other length (0 included) long |
| Switches.TaglessSwitch | code/chapter4/examples/switch/main.go:19-29 | lengths up to 4 (0 included) are short, 5-6 nice, 7-8 quiet, above 8 long, each as an iff |
| Switches.SwitchesAgree | code/chapter4/examples/switch/main.go:8-29 | the two switches agree on every length >= 1; on the empty word the first says long and the second short |
| Switches.TagLoop | code/chapter4/examples/switch/main.go:8-16 | the first loop prints Report of the words with the tag switch on each word's byte length |
| Switches.TaglessLoop | code/chapter4/examples/switch/main.go:19-29 | the second loop prints Report of the words with the tagless switch on each word's byte length |
| Switches.LoopsAgree | code/chapter4/examples/switch/main.go:8-29 | for non-empty words both loops print the same lines |
| Switches.ReportOne | code/chapter4/examples/switch/main.go:8-16 | a single word prints the line of its byte length's class |
| Switches.ReportFour | code/chapter4/examples/switch/main.go:6-29 | any four words of byte lengths 4, 6, 7 and 11 print short, nice, nothing and long, in both loops |
| Switches.SampleWords | code/chapter4/examples/switch/main.go:6-29 | bird is short, potato nice, monitor prints nothing, motherboard long, in both loops |
| Switches.NonAsciiWord | code/chapter4/examples/switch/main.go:8-16 | "café" is classed by its 5 bytes, so both loops call it nice, not short |
| Switches.ClassifyMeaning | code/chapter4/exercises/1and2/main.go:17-28 | Six! iff n is divisible by 2 and 3; Two! iff even and not by 3; Three! iff odd and by 3; Never mind iff by neither |
| Switches.SixIffTwoAndThree | code/chapter4/exercises/1and2/main.go:19-21 | n % 6 == 0 iff n % 2 == 0 and n % 3 == 0 |
| Switches.DivisibilityLines | code/chapter4/exercises/1and2/main.go:17-28 | the loop prints exactly one line per number, the message of its class |
| Iota.IotaForms | code/chapter7/examples/iota/main.go:18-29 | on line i, `c + iota` is c + i, `c << iota` is c * 2^i, and `1 << iota` is 2^i, doubling from one line to the next |
| Iota.EvalFailsIffNegativeShift | code/chapter7/examples/iota/main.go:7-33 | a constant expression fails to evaluate iff some shift inside it has a count that evaluates to a negative number |
| Iota.BitsLines | code/chapter7/examples/iota/main.go:28-33 | every line of the Bit block is governed by `1 << iota`, so line i is 2^i |
| Iota.EvalBlockMeaning | code/chapter7/examples/iota/main.go:7-33 | a block evaluates iff every line's governing expression evaluates with that line's index, and value i is that result |
| Iota.EvalFromMeaning | code/chapter7/examples/iota/main.go:16-23 | the same, from any line of the block onwards |
| Iota.GoverningBareRun | code/chapter7/examples/iota/main.go:19-21 | a run of lines without expressions repeats the last explicit expression |
| Iota.MailCategoryValues | code/chapter7/examples/iota/main.go:7-13 | the MailCategory block is 0, 1, 2, 3, 4 |
| Iota.FieldValues | code/chapter7/examples/iota/main.go:16-23 | the Field block is 0, 2, 20, 20, 20, 5 |
| Iota.BitValues | code/chapter7/examples/iota/main.go:28-33 | the Bit block is 1, 2, 4, 8 |
| Interfaces.ZeroValue | code/chapter7/examples/type_assertion/main.go:24-28 | the zero value of a type has that type: 0, false, or a nil pointer |
| Interfaces.Equal | code/chapter7/examples/compare_interfaces/main.go:23-25 | == on interfaces panics iff both hold the same incomparable dynamic type; otherwise it is true iff types and values are equal |
| Interfaces.DoubleInt.constructor | code/chapter7/examples/compare_interfaces/main.go:29-30 | the variable holds its initial value |
| Interfaces.DoubleInt.Double | code/chapter7/examples/compare_interfaces/main.go:11-13 | the pointee is doubled in place (exactly, when it fits) |
| Interfaces.SliceVar.constructor | code/chapter7/examples/compare_interfaces/main.go:31-32 | the variable holds the given slice header |
| Interfaces.DoubleSlice | code/chapter7/examples/compare_interfaces/main.go:17-21 | every element is doubled in place through the shared array, the length is unchanged, and no slot outside the slice changes |
| Interfaces.DoubleSliceDemo | code/chapter7/examples/compare_interfaces/main.go:17-21 | doubling {1, 2, 3} gives {2, 4, 6} |
| Interfaces.PointerComparison | code/chapter7/examples/compare_interfaces/main.go:38-43 | pointers of the same type compare equal iff they point to the same variable |
| Interfaces.DifferentTypes | code/chapter7/examples/compare_interfaces/main.go:45-46 | values of different dynamic types compare unequal without panicking |
| Interfaces.SampleComparability | code/chapter7/examples/compare_interfaces/main.go:38-50 | DoubleInt and pointers are comparable; DoubleIntSlice is not |
| Interfaces.CompareMain | code/chapter7/examples/compare_interfaces/main.go:27-50 | the program prints false three times and then panics comparing the two slices |
| Interfaces.Assert | code/chapter7/examples/type_assertion/main.go:11-22 | x.(T) succeeds iff the dynamic type is identical to T, giving the value, and panics otherwise |
| Interfaces.AssertOk | code/chapter7/examples/type_assertion/main.go:24-28 | the comma-ok form never panics: ok iff x.(T) would succeed, with its value, else the zero value of T |
| Interfaces.NamedIsNotUnderlying | code/chapter7/examples/type_assertion/main.go:20-22 | asserting the underlying type of a named type panics |
| Interfaces.TypeAssertionMain | code/chapter7/examples/type_assertion/main.go:7-28 | b + 20 is 120; asserting string or int panics; the comma-ok bool assertion gives false, false |
| Interfaces.NilComparison | code/chapter7/examples/nil_interface/main.go:17-25 | an interface equals nil iff it has no dynamic type, whatever its value |
| Interfaces.NilInterfaceMain | code/chapter7/examples/nil_interface/main.go:17-25 | the zero interface and the nil pointer are nil; the interface holding the nil pointer is not |
| Receivers.CounterVar.constructor | code/chapter7/examples/receivers/main.go:33-34 | a zero Counter has total 0 |
| Receivers.CounterVar.Increment | code/chapter7/examples/receivers/main.go:13-16 | Increment through a pointer updates the variable itself to Incremented of its old value |
| Receivers.Incremented | code/chapter7/examples/receivers/main.go:13-16 | Increment adds exactly 1 to total below the largest 64-bit int, and wraps from it to the smallest |
| Receivers.String | code/chapter7/examples/receivers/main.go:18-20 | String starts with "total: " and the rest parses back to the total |
| Receivers.DoUpdateWrong | code/chapter7/examples/receivers/main.go:22-25 | the function increments and shows a copy; the caller's value is not reachable from it |
| Receivers.DoUpdateRight | code/chapter7/examples/receivers/main.go:27-30 | through the pointer the caller's counter rises by 1 and is shown |
| Receivers.ReceiversMain | code/chapter7/examples/receivers/main.go:32-41 | the program shows totals 0, 1, 2 (inside doUpdateWrong), 1, 2 (inside doUpdateRight) and 2 |
| Receivers.ShortString | code/chapter7/examples/method_values_expressions/main.go:18-20 | String ends with ", " and what precedes it parses back to the total |
| Receivers.CallBound | code/chapter7/examples/method_values_expressions/main.go:23-29 | calling a bound method value increments the counter it captured |
| Receivers.MethodValuesMain | code/chapter7/examples/method_values_expressions/main.go:22-32 | f1() raises the total to 1, the method expression on &c to 2, and Counter.String leaves it at 2 |
| CallByValue.ModifyValue | code/chapter5/examples/call_by_value/main.go:9-13 | inside, n is doubled and the copy's age becomes that doubled n |
| CallByValue.CallByValueMain | code/chapter5/examples/call_by_value/main.go:15-19 | inside, (age 80, n 80); the caller keeps age 25 and n 40 |
| Prefixer.SprintfVerb | code/chapter5/exercises/3/main.go:7 | a leading `%s` is replaced by the next argument, or by "%!s(MISSING)" when none is left, and the rest of the format uses the remaining arguments |
| Prefixer.SprintfChar | code/chapter5/exercises/3/main.go:7 | any other leading character is copied and uses no argument |
| Prefixer.ExpandPlain | code/chapter5/exercises/3/main.go:7 | a format with no `%` is copied unchanged and uses none of the arguments |
| Prefixer.ExpandUnusedSuffix | code/chapter5/exercises/3/main.go:7 | `%s` takes the arguments in order, so the unused ones are the last ones |
| Prefixer.SprintfPlain | code/chapter5/exercises/3/main.go:7 | a format with no `%` comes back unchanged, followed by "%!(EXTRA string=…, …)" listing every argument, or by nothing when there are none |
| Prefixer.SprintfExtraArgument | code/chapter5/exercises/3/main.go:7 | Sprintf("hi", "guys") is "hi%!(EXTRA string=guys)" |
| Prefixer.PrefixerConcat | code/chapter5/exercises/3/main.go:5-10 | prefixer(p)(s) is p + " " + s (the Sprintf form equals the concatenation form), of length len(p) + 1 + len(s), starting with p |
| Prefixer.HelloWorld | code/chapter5/exercises/3/main.go:12-14 | helloPrefix("world") is "hello world" |
| Defer.Unwound | code/chapter5/examples/defer2/main.go:8-15 | running the deferred calls prints one line per call |
| Defer.UnwoundReverses | code/chapter5/examples/defer2/main.go:8-18 | deferred calls run last-in-first-out: the i-th deferred call prints the i-th line from the end |
| Defer.Frame.constructor | code/chapter5/examples/defer2/main.go:5-6 | a frame starts with no deferred calls and no output |
| Defer.Frame.Defer | code/chapter5/examples/defer2/main.go:8-15 | defer pushes the call with its argument as evaluated now and prints nothing |
| Defer.Frame.Println | code/chapter5/examples/defer2/main.go:18 | a print appends one line and leaves the deferred calls alone |
| Defer.Frame.Return | code/chapter5/examples/defer2/main.go:19 | returning runs every deferred call in reverse order and leaves none pending |
| Defer.Defer2Main | code/chapter5/examples/defer2/main.go:7-19 | the output is "third: 30", "second: 20", "first: 10" |

## Left out

- code/chapter5/exercises/2/main.go (file I/O through `os.Open`, `Stat` and `os.Args`), code/chapter6/exercises/3/main.go (garbage-collector timing) and code/chapter2/examples/main.go (floating point) are not part of this model.
- The demos with no run-time logic to state are not part of this model: struct literals, embedding and promotion, method sets checked at compile time, heap escape, pointer addresses, shadowing, the function-to-interface adapter, and code/chapter7/examples/interface/main.go.
- Printing is not modelled as I/O. Printed lines are values: strings for the calculator, the switches and the z search, `(label, value)` pairs for `defer`, and the shown `String()` results for the counters. `fmt`'s `%v` formatting of slices, maps and runes is not modelled.
- Receivers.String: the text omits the ", last updated: …" part, because `lastUpdated` comes from `time.Now()`. The same holds for Receivers.ShortString; the model keeps `total` only.
- Receivers.DoUpdateWrong: the "in doUpdateWrong:" prefix of the printed line is not modelled; the shown value is the copy's `String()`.
- SliceExamples.FillNumbers: the random numbers from `rand.New(rand.NewSource(42))` are taken as an input sequence of ten draws; their values are not modelled.
- Slices.Append: Go does not fix how much a reallocation grows the capacity. The code doubles small capacities and then grows by a quarter, but the contract only promises cap >= the new length.
- Strconv.Atoi: the text of the error is not modelled, only whether parsing fails. Values outside the 64-bit range are rejected, as `strconv.Atoi` does. Strconv.Atoi's contract states the accepted shape of the text; its value is stated by Strconv.AtoiOfItoa.
- Prefixer.Sprintf: only the `%s` verb is handled, the only one the closure uses; an unused argument is reported with the type `string`, since every argument in the model is a string.
- Receivers.CallBound: a method value is modelled as a `BoundIncrement` value that holds the receiver it captured; Go's function values are not modelled in general.
- Utf8.DecodeFromEncodeAll: offsets are proved step by step for well-formed UTF-8. For invalid input the decoder's one-byte step is stated by Utf8.DecodeRune, but no lemma lists every step of an arbitrary byte string.
- Calculator.Check: the loop body uses early exits from a labelled block in place of Go's `continue`; the printed line is the same.
- Go's goroutines, channels and the garbage collector play no part in these programs and are not modelled.
