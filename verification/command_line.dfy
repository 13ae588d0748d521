/**
 * The program's argument handling: option/value pairs with short and long
 * names, later options overriding earlier ones, the `WIDTHxHEIGHT`
 * resolution found anywhere in its value and checked against the supported
 * sizes, and the usage error that ends the program otherwise.
 */
module CommandLine {
  import opened Results
  import opened JavaInt

  const DefaultInput: string := "scenes/cone.xml"
  const DefaultOutput: string := "renders/test.png"
  const DefaultWidth: int := 1920
  const DefaultHeight: int := 1080
  const DefaultBounces: int := 4

  /** What the program renders, where it writes it, at which size and with how many bounces. */
  datatype Options = Options(input: string, output: string, width: int, height: int, bounces: int)

  /**
   * How parsing ends early: the usage message and `System.exit`, or a
   * `NumberFormatException` from `Integer.parseInt`, which nothing catches.
   */
  datatype Failure = Usage | BadNumber(text: string)

  const Defaults: Options := Options(DefaultInput, DefaultOutput, DefaultWidth, DefaultHeight, DefaultBounces)

  const InputKeys: set<string> := {"-i", "--input"}
  const OutputKeys: set<string> := {"-o", "--output"}
  const BounceKeys: set<string> := {"-b", "--bounces"}
  const ResolutionKeys: set<string> := {"-r", "--resolution"}

  predicate KnownKey(key: string) {
    key in InputKeys || key in OutputKeys || key in BounceKeys || key in ResolutionKeys
  }

  // ---------------------------------------------------------------------------
  // The resolution pattern (\d+)x(\d+)
  // ---------------------------------------------------------------------------

  /** `\d` without the Unicode flag: an ASCII digit. */
  predicate IsDigit(c: char) {
    '0' <= c <= '9'
  }

  predicate AllDigits(s: string) {
    forall i :: 0 <= i < |s| ==> IsDigit(s[i])
  }

  /** Where the run of digits starting at `i` ends. */
  function RunEnd(s: string, i: nat): (j: nat)
    requires i <= |s|
    ensures i <= j <= |s|
    ensures AllDigits(s[i..j])
    ensures j < |s| ==> !IsDigit(s[j])
    decreases |s| - i
  {
    if i < |s| && IsDigit(s[i]) then
      var j := RunEnd(s, i + 1);
      assert s[i..j] == [s[i]] + s[i + 1..j];
      j
    else i
  }

  /**
   * The match starting at `i`, if any: greedy `\d+` cannot give back digits
   * to make room for the `x`, since what it gives back is a digit, so the
   * groups are the maximal digit runs on either side of the `x`.
   */
  function MatchAt(s: string, i: nat): Option<(string, string)>
    requires i <= |s|
  {
    var j := RunEnd(s, i);
    if i < j && j + 1 < |s| && s[j] == 'x' && IsDigit(s[j + 1]) then
      Some((s[i..j], s[j + 1..RunEnd(s, j + 1)]))
    else None
  }

  /** `Matcher.find`: the leftmost match at or after `i`. */
  function FindFrom(s: string, i: nat): (r: Option<(string, string)>)
    requires i <= |s|
    ensures r.Some? ==> |r.value.0| > 0 && |r.value.1| > 0 && AllDigits(r.value.0) && AllDigits(r.value.1)
    decreases |s| - i
  {
    if i == |s| then None
    else if MatchAt(s, i).Some? then MatchAt(s, i)
    else FindFrom(s, i + 1)
  }

  function Find(s: string): Option<(string, string)> {
    FindFrom(s, 0)
  }

  /** `1 <= width <= 4096` but `1 <= height <= 4095`: heights of 4096 and above are refused. */
  predicate SupportedResolution(width: int, height: int) {
    0 < width <= 4096 && 0 < height < 4096
  }

  /** The `--resolution` value: the first `WIDTHxHEIGHT` in it, parsed and checked. */
  function Resolution(text: string): (r: Result<(int, int), Failure>)
    ensures Find(text).None? ==> r == Err(Usage)
    ensures r.Ok? ==> SupportedResolution(r.value.0, r.value.1)
  {
    match Find(text)
    case None => Err(Usage)
    case Some(groups) =>
      match ParseInt(groups.0, 10)
      case None => Err(BadNumber(groups.0))
      case Some(w) =>
        match ParseInt(groups.1, 10)
        case None => Err(BadNumber(groups.1))
        case Some(h) => if SupportedResolution(w, h) then Ok((w, h)) else Err(Usage)
  }

  /** A run of digits, then `x`, then a run of digits, is matched whole. */
  lemma FindExact(w: string, h: string)
    requires |w| > 0 && |h| > 0 && AllDigits(w) && AllDigits(h)
    ensures Find(w + "x" + h) == Some((w, h))
  {
    var s := w + "x" + h;
    RunEndOfDigits(s, 0, |w|);
    RunEndOfDigits(s, |w| + 1, |s|);
    assert s[0..|w|] == w;
    assert s[|w| + 1..|s|] == h;
  }

  /** A run of digits from `i` up to a non-digit (or the end) at `j` ends at `j`. */
  lemma {:induction false} RunEndOfDigits(s: string, i: nat, j: nat)
    requires i <= j <= |s|
    requires forall k :: i <= k < j ==> IsDigit(s[k])
    requires j < |s| ==> !IsDigit(s[j])
    ensures RunEnd(s, i) == j
    decreases j - i
  {
    if i < j {
      RunEndOfDigits(s, i + 1, j);
    }
  }

  /** `Integer.toString` in base 10 writes only digits. */
  lemma {:induction false} FormatDigits(n: nat)
    ensures AllDigits(Format(n, 10))
    decreases n
  {
    if n >= 10 {
      DivShrinks(n, 10);
      FormatDigits(n / 10);
    }
  }

  /**
   * A resolution written as `WIDTHxHEIGHT` is accepted exactly when it is a
   * supported size, and then read back as written.
   */
  lemma ResolutionOfSize(w: nat, h: nat)
    requires IsInt32(w) && IsInt32(h)
    ensures SupportedResolution(w, h) ==> Resolution(Format(w, 10) + "x" + Format(h, 10)) == Ok((w, h))
    ensures !SupportedResolution(w, h) ==> Resolution(Format(w, 10) + "x" + Format(h, 10)) == Err(Usage)
  {
    FormatDigits(w);
    FormatDigits(h);
    FindExact(Format(w, 10), Format(h, 10));
    ParseFormatRoundTrip(w, 10);
    ParseFormatRoundTrip(h, 10);
  }

  /** The bounds are not symmetric: 4096 pixels are allowed across but not down. */
  lemma AsymmetricBounds()
    ensures Resolution(Format(4096, 10) + "x" + Format(4095, 10)) == Ok((4096, 4095))
    ensures Resolution(Format(4095, 10) + "x" + Format(4096, 10)) == Err(Usage)
  {
    ResolutionOfSize(4096, 4095);
    ResolutionOfSize(4095, 4096);
  }

  // ---------------------------------------------------------------------------
  // The option loop
  // ---------------------------------------------------------------------------

  /** One option and its value. */
  function Step(o: Options, key: string, value: string): (r: Result<Options, Failure>)
    ensures r.Err? && !KnownKey(key) ==> r == Err(Usage)
    ensures !KnownKey(key) ==> r.Err?
  {
    if key in InputKeys then Ok(o.(input := value))
    else if key in OutputKeys then Ok(o.(output := value))
    else if key in BounceKeys then
      match ParseInt(value, 10)
      case None => Err(BadNumber(value))
      case Some(b) => Ok(o.(bounces := b))
    else if key in ResolutionKeys then
      match Resolution(value)
      case Err(f) => Err(f)
      case Ok(wh) => Ok(o.(width := wh.0, height := wh.1))
    else Err(Usage)
  }

  /** The pairs from position `i` on, in order, stopping at the first failure. */
  function StepsFrom(o: Options, args: seq<string>, i: nat): Result<Options, Failure>
    requires |args| % 2 == 0 && i % 2 == 0 && i <= |args|
    decreases |args| - i
  {
    if i == |args| then Ok(o)
    else
      match Step(o, args[i], args[i + 1])
      case Err(f) => Err(f)
      case Ok(o') => StepsFrom(o', args, i + 2)
  }

  /** `main`'s argument handling: an odd count is a usage error, else the pairs are applied to the defaults. */
  function ParseArguments(args: seq<string>): (r: Result<Options, Failure>)
    ensures |args| % 2 != 0 ==> r == Err(Usage)
    ensures args == [] ==> r == Ok(Options("scenes/cone.xml", "renders/test.png", 1920, 1080, 4))
  {
    if |args| % 2 != 0 then Err(Usage) else StepsFrom(Defaults, args, 0)
  }

  /** An option key at an even position. */
  predicate KeyAt(args: seq<string>, k: int) {
    0 <= k < |args| - 1 && k % 2 == 0
  }

  /** The key at `k` is one of `keys` and no later key is. */
  predicate LastOf(args: seq<string>, keys: set<string>, k: int) {
    && KeyAt(args, k) && args[k] in keys
    && forall j :: k < j < |args| && KeyAt(args, j) ==> args[j] !in keys
  }

  /**
   * How one field of the options depends on a step: a step with one of
   * `keys` that succeeds sets it to `read` of the value, and any other step
   * that succeeds leaves it alone.
   */
  ghost predicate SetsField<T>(keys: set<string>, get: Options -> T, read: string -> T) {
    forall o: Options, key: string, value: string :: StepSets(keys, get, read, o, key, value)
  }

  /** The effect of one step on the field. */
  ghost predicate StepSets<T>(keys: set<string>, get: Options -> T, read: string -> T, o: Options, key: string, value: string) {
    Step(o, key, value).Ok? ==> get(Step(o, key, value).value) == (if key in keys then read(value) else get(o))
  }

  /** A successful run of steps from `i` starts with a successful step. */
  lemma StepsFromUnfolds(o: Options, args: seq<string>, i: nat)
    requires |args| % 2 == 0 && i % 2 == 0 && i < |args|
    requires StepsFrom(o, args, i).Ok?
    ensures Step(o, args[i], args[i + 1]).Ok?
    ensures StepsFrom(o, args, i) == StepsFrom(Step(o, args[i], args[i + 1]).value, args, i + 2)
  {
  }

  /** Within the pairs from `i`, the last pair with one of `keys` decides the field. */
  lemma {:induction false} LastFromWins<T>(o: Options, args: seq<string>, i: nat, keys: set<string>, get: Options -> T, read: string -> T)
    requires |args| % 2 == 0 && i % 2 == 0 && i <= |args|
    requires SetsField(keys, get, read)
    requires StepsFrom(o, args, i).Ok?
    ensures forall k :: i <= k && LastOf(args, keys, k) ==> get(StepsFrom(o, args, i).value) == read(args[k + 1])
    decreases |args| - i
  {
    if i < |args| {
      StepsFromUnfolds(o, args, i);
      var o' := Step(o, args[i], args[i + 1]).value;
      assert StepSets(keys, get, read, o, args[i], args[i + 1]);
      LastFromWins(o', args, i + 2, keys, get, read);
      forall k | i <= k && LastOf(args, keys, k)
        ensures get(StepsFrom(o, args, i).value) == read(args[k + 1])
      {
        if k == i {
          assert forall j :: i + 2 <= j && KeyAt(args, j) ==> args[j] !in keys;
          UntouchedFrom(o', args, i + 2, keys, get, read);
          assert get(o') == read(args[i + 1]);
        }
      }
    }
  }

  /** Within the pairs from `i`, a field that none of them names keeps its value. */
  lemma {:induction false} UntouchedFrom<T>(o: Options, args: seq<string>, i: nat, keys: set<string>, get: Options -> T, read: string -> T)
    requires |args| % 2 == 0 && i % 2 == 0 && i <= |args|
    requires SetsField(keys, get, read)
    requires StepsFrom(o, args, i).Ok?
    requires forall k :: i <= k && KeyAt(args, k) ==> args[k] !in keys
    ensures get(StepsFrom(o, args, i).value) == get(o)
    decreases |args| - i
  {
    if i < |args| {
      StepsFromUnfolds(o, args, i);
      var o' := Step(o, args[i], args[i + 1]).value;
      assert StepSets(keys, get, read, o, args[i], args[i + 1]);
      assert KeyAt(args, i);
      UntouchedFrom(o', args, i + 2, keys, get, read);
    }
  }

  /**
   * Each option's value is the one given with its last occurrence, under
   * either of its names; an option never given keeps its default.
   */
  lemma LastOccurrenceWins(args: seq<string>)
    requires ParseArguments(args).Ok?
    ensures (forall k :: KeyAt(args, k) ==> args[k] !in InputKeys) ==> ParseArguments(args).value.input == DefaultInput
    ensures forall k :: LastOf(args, InputKeys, k) ==> ParseArguments(args).value.input == args[k + 1]
    ensures (forall k :: KeyAt(args, k) ==> args[k] !in OutputKeys) ==> ParseArguments(args).value.output == DefaultOutput
    ensures forall k :: LastOf(args, OutputKeys, k) ==> ParseArguments(args).value.output == args[k + 1]
    ensures (forall k :: KeyAt(args, k) ==> args[k] !in BounceKeys) ==> ParseArguments(args).value.bounces == DefaultBounces
    ensures forall k :: LastOf(args, BounceKeys, k) ==> Some(ParseArguments(args).value.bounces) == ParseInt(args[k + 1], 10)
    ensures (forall k :: KeyAt(args, k) ==> args[k] !in ResolutionKeys) ==>
      ParseArguments(args).value.width == DefaultWidth && ParseArguments(args).value.height == DefaultHeight
    ensures forall k :: LastOf(args, ResolutionKeys, k) ==>
      Resolution(args[k + 1]) == Ok((ParseArguments(args).value.width, ParseArguments(args).value.height))
  {
    var identity := (s: string) => s;
    var input, output, bounces := (o: Options) => o.input, (o: Options) => o.output, (o: Options) => Some(o.bounces);
    var readInt := (s: string) => ParseInt(s, 10);
    var size := (o: Options) => Result<(int, int), Failure>.Ok((o.width, o.height));
    var readSize := (s: string) => Resolution(s);
    LastFromWins(Defaults, args, 0, InputKeys, input, identity);
    LastFromWins(Defaults, args, 0, OutputKeys, output, identity);
    LastFromWins(Defaults, args, 0, BounceKeys, bounces, readInt);
    LastFromWins(Defaults, args, 0, ResolutionKeys, size, readSize);
    if forall k :: KeyAt(args, k) ==> args[k] !in InputKeys {
      UntouchedFrom(Defaults, args, 0, InputKeys, input, identity);
    }
    if forall k :: KeyAt(args, k) ==> args[k] !in OutputKeys {
      UntouchedFrom(Defaults, args, 0, OutputKeys, output, identity);
    }
    if forall k :: KeyAt(args, k) ==> args[k] !in BounceKeys {
      UntouchedFrom(Defaults, args, 0, BounceKeys, bounces, readInt);
    }
    if forall k :: KeyAt(args, k) ==> args[k] !in ResolutionKeys {
      UntouchedFrom(Defaults, args, 0, ResolutionKeys, size, readSize);
    }
  }

  /** Every key in a successful parse is one of the eight option names. */
  lemma {:induction false} OnlyKnownKeys(o: Options, args: seq<string>, i: nat)
    requires |args| % 2 == 0 && i % 2 == 0 && i <= |args|
    requires StepsFrom(o, args, i).Ok?
    ensures forall k :: i <= k && KeyAt(args, k) ==> KnownKey(args[k])
    decreases |args| - i
  {
    if i < |args| {
      OnlyKnownKeys(Step(o, args[i], args[i + 1]).value, args, i + 2);
    }
  }

  /** `--bounces` takes any int, negative ones included. */
  lemma NegativeBouncesAccepted()
    ensures ParseArguments(["--bounces", "-3"]) == Ok(Defaults.(bounces := -3))
  {
    assert "-3"[1..] == "3";
    assert "3"[..0] == [];
  }
}
