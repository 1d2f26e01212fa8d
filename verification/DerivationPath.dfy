/** BIP-32 derivation paths: parsing the textual notation and printing it back. */
module DerivationPath {
  import opened Basics

  const HARDENED := 0x8000_0000
  const MAX_UINT32 := 0xffff_ffff

  type Component = x: nat | x <= MAX_UINT32

  const DEFAULT_ROOT: seq<Component> := [HARDENED + 44, HARDENED + 60, HARDENED, 0]

  datatype Error = EmptyPath | AmbiguousPath | InvalidComponent | OutOfRange

  datatype Parsed<T> = Ok(value: T) | Err(error: Error)

  // ---- strings ----

  /** White space as Go's unicode.IsSpace has it. */
  predicate IsSpace(c: char) {
    || '\t' <= c <= '\r' || c == ' ' || c == '\U{85}' || c == '\U{A0}' || c == '\U{1680}' ||
       '\U{2000}' <= c <= '\U{200a}'
    || c == '\U{2028}' || c == '\U{2029}' || c == '\U{202f}' || c == '\U{205f}' || c == '\U{3000}'
  }

  function TrimLeft(s: string): string {
    if s != "" && IsSpace(s[0]) then TrimLeft(s[1..]) else s
  }

  function TrimRight(s: string): string {
    if s != "" && IsSpace(s[|s| - 1]) then TrimRight(s[..|s| - 1]) else s
  }

  function TrimSpace(s: string): string { TrimRight(TrimLeft(s)) }

  /** The pieces between slashes; always at least one. */
  function Split(s: string): (parts: seq<string>)
    ensures |parts| >= 1
  {
    if s == "" then [""] else Extended(Split(s[..|s| - 1]), s[|s| - 1])
  }

  /** One more character: a slash starts a new piece, any other goes to the last one. */
  function Extended(parts: seq<string>, c: char): (more: seq<string>)
    requires |parts| >= 1
    ensures |more| >= 1
  {
    if c == '/' then parts + [""] else parts[..|parts| - 1] + [parts[|parts| - 1] + [c]]
  }

  // ---- integers as math/big reads them with base 0 ----

  /** The value of a digit, or a number no base has. */
  function DigitValue(c: char): nat {
    if '0' <= c <= '9' then (c - '0') as nat
    else if 'a' <= c <= 'z' then (c - 'a') as nat + 10
    else if 'A' <= c <= 'Z' then (c - 'A') as nat + 10
    else 100
  }

  datatype Previous = Nothing | Digit | Underscore

  /** While scanning: what came last, the digits so far, and whether an underscore was misplaced. */
  datatype Scan = Scan(prev: Previous, count: nat, value: nat, misplaced: bool)

  /** Reads digits and separators; returns where it stopped and what is left. */
  function ScanDigits(s: string, base: nat, st: Scan): (r: (Scan, string)) {
    if s != "" && (s[0] == '_' || DigitValue(s[0]) < base) then ScanDigits(s[1..], base, Scanned(s[0], base, st))
    else (st, s)
  }

  /** The state after one more character: a separator belongs after a digit, a digit counts. */
  function Scanned(c: char, base: nat, st: Scan): Scan {
    if c == '_' then st.(prev := Underscore, misplaced := st.misplaced || st.prev != Digit)
    else Scan(Digit, st.count + 1, Scaled(st.value, base) + DigitValue(c), st.misplaced)
  }

  /** The value times the base, which is 2, 8, 10 or 16. */
  function Scaled(value: nat, base: nat): nat {
    if base == 2 then value * 2 else if base == 8 then value * 8 else if base == 16 then value * 16 else value * 10
  }

  /** The number after the sign: a base prefix, then digits with separators between them. */
  function ScanNat(s: string): Option<nat> {
    if s == "0" then Some(0)
    else if s != "" && s[0] == '0' then
      if s[1] == 'b' || s[1] == 'B' then Finish(ScanDigits(s[2..], 2, Scan(Digit, 0, 0, false)), false)
      else if s[1] == 'o' || s[1] == 'O' then Finish(ScanDigits(s[2..], 8, Scan(Digit, 0, 0, false)), false)
      else if s[1] == 'x' || s[1] == 'X' then Finish(ScanDigits(s[2..], 16, Scan(Digit, 0, 0, false)), false)
      else Finish(ScanDigits(s[1..], 8, Scan(Digit, 0, 0, false)), true)
    else Finish(ScanDigits(s, 10, Scan(Nothing, 0, 0, false)), false)
  }

  /** Everything must have been read, separators in place, and digits found (a lone octal prefix is 0). */
  function Finish(r: (Scan, string), octal: bool): Option<nat> {
    if r.1 != "" || r.0.misplaced || r.0.prev == Underscore || (r.0.count == 0 && !octal) then None
    else Some(r.0.value)
  }

  function ScanInt(s: string): Option<int> {
    if s == "" then None
    else
      var n := ScanNat(if s[0] == '-' || s[0] == '+' then s[1..] else s);
      if n.None? then None
      else
        var value: int := if s[0] == '-' then 0 - n.value else n.value;
        Some(value)
  }

  // ---- parsing ----

  function ParseComponent(text: string): Parsed<Component> {
    var trimmed := TrimSpace(text);
    var hardened := trimmed != "" && trimmed[|trimmed| - 1] == '\'';
    var digits := if hardened then TrimSpace(trimmed[..|trimmed| - 1]) else trimmed;
    var value: Component := if hardened then HARDENED else 0;
    var n := ScanInt(digits);
    if n.None? then Err(InvalidComponent)
    else if n.value < 0 || n.value > MAX_UINT32 - value then Err(OutOfRange)
    else Ok(value + n.value)
  }

  /** The meaning of each component on its own. */
  function Each(components: seq<string>): (values: seq<Parsed<Component>>)
    ensures |values| == |components|
  {
    seq(|components|, i requires 0 <= i < |components| => ParseComponent(components[i]))
  }

  /** The path after the first k components; the first error counts. */
  function Joined(root: seq<Component>, values: seq<Parsed<Component>>, k: nat): (r: Parsed<seq<Component>>)
    requires k <= |values|
    ensures r.Ok? ==> |r.value| == |root| + k
  {
    if k == 0 then Ok(root)
    else
      var before, c := Joined(root, values, k - 1), values[k - 1];
      if before.Err? then before else if c.Err? then Err(c.error) else Ok(before.value + [c.value])
  }

  /** The root extended by all components. */
  function Value(root: seq<Component>, components: seq<string>): (r: Parsed<seq<Component>>)
    ensures r.Ok? ==> |r.value| == |root| + |components|
  {
    Joined(root, Each(components), |components|)
  }

  /** What a textual path means: absolute after `m/`, else below the default root. */
  function Meaning(path: string): (r: Parsed<seq<Component>>)
    ensures r.Ok? ==> r.value != []
  {
    var parts := Split(path);
    MeaningOf(TrimSpace(parts[0]), parts)
  }

  function MeaningOf(first: string, parts: seq<string>): (r: Parsed<seq<Component>>)
    requires |parts| > 0
    ensures r.Ok? ==> r.value != []
  {
    if first == "" then Err(AmbiguousPath)
    else if first == "m" then
      if |parts| == 1 then Err(EmptyPath) else Value([], parts[1..])
    else Value(DEFAULT_ROOT, parts)
  }

  method ParseDerivationPath(path: string) returns (r: Parsed<seq<Component>>)
    ensures r == Meaning(path)
  {
    var result: seq<Component> := [];
    var components := Split(path);
    var first := TrimSpace(components[0]);
    if first == "" {
      return Err(AmbiguousPath);
    } else if first == "m" {
      components := components[1..];
    } else {
      result := DEFAULT_ROOT;
    }
    if |components| == 0 {
      return Err(EmptyPath);
    }
    r := ParseComponents(components, result);
  }

  /** Appends the components' values one by one. */
  method ParseComponents(components: seq<string>, root: seq<Component>) returns (r: Parsed<seq<Component>>)
    ensures r == Value(root, components)
  {
    EachMatches(components);
    r := JoinAll(components, root, Each(components));
  }

  method JoinAll(components: seq<string>, root: seq<Component>, ghost values: seq<Parsed<Component>>)
    returns (r: Parsed<seq<Component>>)
    requires |values| == |components| && Matches(components, values)
    ensures r == Joined(root, values, |values|)
  {
    var result := root;
    for i := 0 to |components|
      invariant Joined(root, values, i) == Ok(result)
    {
      var value := ParseOne(components, i, values);
      if value.Err? {
        FirstErrorCounts(root, values, i + 1, |components|);
        return Err(value.error);
      }
      result := result + [value.value];
    }
    r := Ok(result);
  }

  /** The values are those of the components. Folded: `OpenMatch` is always true. */
  ghost predicate Matches(components: seq<string>, values: seq<Parsed<Component>>) {
    forall key {:trigger OpenMatch(key)} :: OpenMatch(key) ==> values == Each(components)
  }

  predicate OpenMatch(key: int) { true }

  lemma EachMatches(components: seq<string>)
    ensures Matches(components, Each(components))
  {
  }

  method ParseOne(components: seq<string>, i: nat, ghost values: seq<Parsed<Component>>)
    returns (value: Parsed<Component>)
    requires |values| == |components| && Matches(components, values) && i < |components|
    ensures value == values[i]
  {
    assert OpenMatch(0);
    value := ParseComponent(components[i]);
  }

  lemma {:induction false} FirstErrorCounts(root: seq<Component>, values: seq<Parsed<Component>>, j: nat, k: nat)
    requires j <= k <= |values| && Joined(root, values, j).Err?
    ensures Joined(root, values, k) == Joined(root, values, j)
  {
    if j < k {
      FirstErrorCounts(root, values, j, k - 1);
    }
  }

  // ---- printing ----

  function Decimal(n: nat): (s: string)
    ensures s != ""
  {
    if n < 10 then [DigitChar(n)] else Decimal(n / 10) + [DigitChar(n % 10)]
  }

  function DigitChar(d: nat): (c: char)
    requires d < 10
    ensures '0' <= c <= '9' && DigitValue(c) == d
  {
    '0' + d as char
  }

  function PrintComponent(c: Component): string {
    if c >= HARDENED then Decimal(c - HARDENED) + "'" else Decimal(c)
  }

  /** The canonical text of the first k components. */
  function Printed(path: seq<Component>, k: nat): string
    requires k <= |path|
  {
    if k == 0 then "m" else Printed(path, k - 1) + "/" + PrintComponent(path[k - 1])
  }

  method String(path: seq<Component>) returns (result: string)
    ensures result == Printed(path, |path|)
  {
    result := "m";
    for i := 0 to |path|
      invariant result == Printed(path, i)
    {
      var component: nat := path[i];
      var hardened := false;
      if component >= HARDENED {
        component := component - HARDENED;
        hardened := true;
      }
      result := result + "/" + Decimal(component);
      if hardened {
        result := result + "'";
      }
    }
  }

  // ---- round trips ----

  predicate Clean(s: string) { forall i :: 0 <= i < |s| ==> s[i] != '/' }

  lemma {:induction false} SplitAppend(s: string, c: string)
    requires Clean(c)
    ensures Split(s + "/" + c) == Split(s) + [c]
  {
    var whole := s + "/" + c;
    if c == "" {
      assert whole[..|whole| - 1] == s;
    } else {
      var init, last := c[..|c| - 1], c[|c| - 1];
      SplitAppend(s, init);
      assert whole[..|whole| - 1] == s + "/" + init;
      assert init + [last] == c;
    }
  }

  lemma {:induction false} DecimalIsClean(n: nat)
    ensures forall i :: 0 <= i < |Decimal(n)| ==> '0' <= Decimal(n)[i] <= '9'
    ensures Decimal(n)[0] == '0' <==> n == 0
  {
    if n >= 10 {
      DecimalIsClean(n / 10);
    }
  }

  /** Scanning goes on where it stopped. */
  lemma {:induction false} ScanOn(s: string, t: string, base: nat, st: Scan)
    requires ScanDigits(s, base, st).1 == ""
    ensures ScanDigits(s + t, base, st) == ScanDigits(t, base, ScanDigits(s, base, st).0)
  {
    if s == "" {
      assert s + t == t;
    } else {
      assert (s + t)[1..] == s[1..] + t;
      ScanOn(s[1..], t, base, Scanned(s[0], base, st));
    }
  }

  lemma {:induction false} ScanDecimal(n: nat)
    ensures var r := ScanDigits(Decimal(n), 10, Scan(Nothing, 0, 0, false));
            r.1 == "" && r.0.value == n && r.0.prev == Digit && r.0.count > 0 && !r.0.misplaced
  {
    var start := Scan(Nothing, 0, 0, false);
    if n < 10 {
      assert Decimal(n)[1..] == "";
    } else {
      ScanDecimal(n / 10);
      var tail := [DigitChar(n % 10)];
      ScanOn(Decimal(n / 10), tail, 10, start);
      assert tail[1..] == "";
    }
  }

  lemma ScanPrinted(n: nat)
    ensures ScanInt(Decimal(n)) == Some(n)
  {
    DecimalIsClean(n);
    if n > 0 {
      ScanDecimal(n);
    }
  }

  lemma NoTrim(s: string)
    requires s != "" && !IsSpace(s[0]) && !IsSpace(s[|s| - 1])
    ensures TrimSpace(s) == s
  {
  }

  lemma PrintIsClean(c: Component)
    ensures Clean(PrintComponent(c))
  {
    DecimalIsClean(if c >= HARDENED then c - HARDENED else c);
  }

  lemma ComponentRoundTrip(c: Component)
    ensures ParseComponent(PrintComponent(c)) == Ok(c)
  {
    var n := if c >= HARDENED then c - HARDENED else c;
    DecimalIsClean(n);
    ScanPrinted(n);
    NoTrim(Decimal(n));
    NoTrim(PrintComponent(c));
    if c >= HARDENED {
      var text := PrintComponent(c);
      assert text[..|text| - 1] == Decimal(n);
    }
  }

  /** The pieces of a printed path. */
  function Texts(path: seq<Component>, k: nat): (texts: seq<string>)
    requires k <= |path|
    ensures |texts| == k + 1 && texts[0] == "m"
  {
    if k == 0 then ["m"] else Texts(path, k - 1) + [PrintComponent(path[k - 1])]
  }

  lemma SplitRoot()
    ensures Split("m") == ["m"]
  {
    assert "m"[..0] == "" && Split("") == [""];
    assert [""][..0] == [] && "" + ['m'] == "m";
  }

  lemma AbsoluteMeaning(parts: seq<string>)
    requires |parts| > 0 && parts[0] == "m"
    ensures MeaningOf(TrimSpace(parts[0]), parts) == if |parts| == 1 then Err(EmptyPath)
            else Value([], parts[1..])
  {
    NoTrim("m");
  }

  lemma {:induction false} SplitPrinted(path: seq<Component>, k: nat)
    requires k <= |path|
    ensures Split(Printed(path, k)) == Texts(path, k)
  {
    if k == 0 {
      SplitRoot();
    } else {
      SplitPrinted(path, k - 1);
      PrintIsClean(path[k - 1]);
      SplitAppend(Printed(path, k - 1), PrintComponent(path[k - 1]));
    }
  }

  lemma {:induction false} TextAt(path: seq<Component>, k: nat, i: nat)
    requires i < k <= |path|
    ensures Texts(path, k)[i + 1] == PrintComponent(path[i])
  {
    if i < k - 1 {
      TextAt(path, k - 1, i);
    }
  }

  lemma PrintedAt(path: seq<Component>, i: nat)
    requires i < |path|
    ensures Each(Texts(path, |path|)[1..])[i] == Ok(path[i])
  {
    TextAt(path, |path|, i);
    ComponentRoundTrip(path[i]);
  }

  lemma {:induction false} JoinedOks(path: seq<Component>, values: seq<Parsed<Component>>, k: nat)
    requires |values| == |path| && (forall i :: 0 <= i < |path| ==> values[i] == Ok(path[i])) && k <= |path|
    ensures Joined([], values, k) == Ok(path[..k])
  {
    if k > 0 {
      JoinedOks(path, values, k - 1);
      assert path[..k] == path[..k - 1] + [path[k - 1]];
    }
  }

  /** Parsing the printed form of a non-empty path gives that path back. */
  lemma PrintThenParse(path: seq<Component>)
    requires path != []
    ensures Meaning(Printed(path, |path|)) == Ok(path)
  {
    var texts := Texts(path, |path|);
    var values := Each(texts[1..]);
    SplitPrinted(path, |path|);
    AbsoluteMeaning(texts);
    forall i | 0 <= i < |path|
      ensures values[i] == Ok(path[i])
    {
      PrintedAt(path, i);
    }
    JoinedOks(path, values, |path|);
    assert path[..|path|] == path;
  }

  /** The empty path is the one the notation has no text for: its printed form is rejected. */
  lemma EmptyPathDoesNotRoundTrip()
    ensures Meaning(Printed([], 0)) == Err(EmptyPath)
  {
    SplitRoot();
    AbsoluteMeaning(["m"]);
  }

  /** An accepted text, its path printed, and that parsed again: the same path. */
  lemma ParsePrintParse(text: string)
    requires Meaning(text).Ok?
    ensures Meaning(Printed(Meaning(text).value, |Meaning(text).value|)) == Meaning(text)
  {
    PrintThenParse(Meaning(text).value);
  }

  // ---- relative paths ----

  lemma ExtendedBehind(left: seq<string>, right: seq<string>, c: char)
    requires |right| >= 1
    ensures Extended(left + right, c) == left + Extended(right, c)
  {
    assert (left + right)[..|left + right| - 1] == left + right[..|right| - 1];
  }

  lemma SplitLast(s: string, c: char)
    ensures Split(s + [c]) == Extended(Split(s), c)
  {
    assert (s + [c])[..|s|] == s;
  }

  lemma SplitGrows(x: string, t: string, left: seq<string>, right: seq<string>, c: char)
    requires Split(x + t) == left + right && Split(t) == right && |right| >= 1
    ensures Split(x + (t + [c])) == left + Split(t + [c])
  {
    SplitLast(x + t, c);
    SplitLast(t, c);
    ExtendedBehind(left, right, c);
    assert x + (t + [c]) == (x + t) + [c];
  }

  lemma {:induction false} SplitJoin(s: string, t: string)
    ensures Split(s + "/" + t) == Split(s) + Split(t)
  {
    if t == "" {
      SplitLast(s, '/');
      assert s + "/" + t == s + ['/'];
    } else {
      var init, last := t[..|t| - 1], t[|t| - 1];
      assert t == init + [last];
      SplitJoin(s, init);
      SplitGrows(s + "/", init, Split(s), Split(init), last);
    }
  }

  /** Components that mean the root may be read into it first. */
  lemma {:induction false} JoinedBehind(root: seq<Component>, first: seq<Parsed<Component>>,
                                        rest: seq<Parsed<Component>>, k: nat)
    requires Joined([], first, |first|) == Ok(root) && k <= |rest|
    ensures Joined([], first + rest, |first| + k) == Joined(root, rest, k)
  {
    if k == 0 {
      JoinedPrefix([], first, rest, |first|);
    } else {
      JoinedBehind(root, first, rest, k - 1);
      assert (first + rest)[|first| + k - 1] == rest[k - 1];
    }
  }

  lemma {:induction false} JoinedPrefix(root: seq<Component>, first: seq<Parsed<Component>>,
                                        rest: seq<Parsed<Component>>, k: nat)
    requires k <= |first|
    ensures Joined(root, first + rest, k) == Joined(root, first, k)
  {
    if k > 0 {
      JoinedPrefix(root, first, rest, k - 1);
    }
  }

  lemma RootText()
    ensures Printed(DEFAULT_ROOT, 4) == "m/44'/60'/0'/0"
  {
    assert Decimal(44) == Decimal(4) + [DigitChar(4)] && Decimal(60) == Decimal(6) + [DigitChar(0)];
    assert Decimal(44) == "44" && Decimal(60) == "60" && Decimal(0) == "0";
    assert Printed(DEFAULT_ROOT, 1) == "m/44'";
    assert Printed(DEFAULT_ROOT, 2) == "m/44'/60'";
    assert Printed(DEFAULT_ROOT, 3) == "m/44'/60'/0'";
  }

  lemma RootMeans()
    ensures Joined([], Each(Texts(DEFAULT_ROOT, 4)[1..]), 4) == Ok(DEFAULT_ROOT)
  {
    var values := Each(Texts(DEFAULT_ROOT, 4)[1..]);
    forall i | 0 <= i < 4
      ensures values[i] == Ok(DEFAULT_ROOT[i])
    {
      PrintedAt(DEFAULT_ROOT, i);
    }
    JoinedOks(DEFAULT_ROOT, values, 4);
    assert DEFAULT_ROOT[..4] == DEFAULT_ROOT;
  }

  /** The root's components in front of others. */
  lemma ValueBehindRoot(parts: seq<string>)
    ensures Value([], Texts(DEFAULT_ROOT, 4)[1..] + parts) == Value(DEFAULT_ROOT, parts)
  {
    var first := Texts(DEFAULT_ROOT, 4)[1..];
    RootMeans();
    assert Each(first + parts) == Each(first) + Each(parts);
    JoinedBehind(DEFAULT_ROOT, Each(first), Each(parts), |parts|);
  }

  /** A relative path means what it means behind the root that BIP-44 and SLIP-44 give. */
  lemma RelativeIsBelowDefaultRoot(path: string)
    requires TrimSpace(Split(path)[0]) != "" && TrimSpace(Split(path)[0]) != "m"
    ensures Meaning(path) == Meaning("m/44'/60'/0'/0" + "/" + path)
  {
    var root, parts, texts := Printed(DEFAULT_ROOT, 4), Split(path), Texts(DEFAULT_ROOT, 4);
    assert Meaning(root + "/" + path) == MeaningOf(TrimSpace((texts + parts)[0]), texts + parts) by {
      SplitPrinted(DEFAULT_ROOT, 4);
      SplitJoin(root, path);
    }
    AbsoluteMeaning(texts + parts);
    assert (texts + parts)[1..] == texts[1..] + parts;
    ValueBehindRoot(parts);
    assert root == "m/44'/60'/0'/0" by {
      RootText();
    }
  }

  // ---- white space ----

  ghost predicate Blank(s: string) { forall i :: 0 <= i < |s| ==> IsSpace(s[i]) }

  lemma AsciiSpaces()
    ensures forall c: char :: c < '\U{80}' ==> (IsSpace(c) <==> c in " \t\n\r\U{0b}\U{0c}")
  {
  }

  lemma {:induction false} TrimLeftBlank(pre: string, s: string)
    requires Blank(pre)
    ensures TrimLeft(pre + s) == TrimLeft(s)
  {
    if pre == "" {
      assert pre + s == s;
    } else {
      assert (pre + s)[1..] == pre[1..] + s;
      TrimLeftBlank(pre[1..], s);
    }
  }

  lemma {:induction false} TrimRightBlank(s: string, post: string)
    requires Blank(post)
    ensures TrimRight(s + post) == TrimRight(s)
  {
    if post == "" {
      assert s + post == s;
    } else {
      var n := |post| - 1;
      assert (s + post)[|s + post| - 1] == post[n];
      assert (s + post)[..|s + post| - 1] == s + post[..n];
      TrimRightBlank(s, post[..n]);
    }
  }

  lemma {:induction false} TrimLeftKeeps(s: string, post: string)
    requires Blank(post)
    ensures TrimLeft(s + post) == if TrimLeft(s) == "" then "" else TrimLeft(s) + post
  {
    if s == "" {
      assert s + post == post + "";
      TrimLeftBlank(post, "");
    } else if IsSpace(s[0]) {
      assert (s + post)[1..] == s[1..] + post;
      TrimLeftKeeps(s[1..], post);
    }
  }

  lemma TrimBlank(pre: string, s: string, post: string)
    requires Blank(pre) && Blank(post)
    ensures TrimSpace(pre + s + post) == TrimSpace(s)
  {
    assert pre + s + post == pre + (s + post);
    TrimLeftBlank(pre, s + post);
    TrimLeftKeeps(s, post);
    TrimRightBlank(TrimLeft(s), post);
  }

  /** White space around a component is ignored. */
  lemma SpacesAround(pre: string, text: string, post: string)
    requires Blank(pre) && Blank(post)
    ensures ParseComponent(pre + text + post) == ParseComponent(text)
  {
    TrimBlank(pre, text, post);
  }

  /** So is white space before the hardening mark. */
  lemma SpacesBeforeMark(c: Component, gap: string)
    requires c >= HARDENED && Blank(gap)
    ensures ParseComponent(Decimal(c - HARDENED) + gap + "'") == Ok(c)
  {
    var digits := Decimal(c - HARDENED);
    var text := digits + gap + "'";
    DecimalIsClean(c - HARDENED);
    NoTrim(text);
    NoTrim(digits);
    assert text[..|text| - 1] == "" + digits + gap;
    TrimBlank("", digits, gap);
    ScanPrinted(c - HARDENED);
  }

  // ---- other numbers ----

  /** A decimal number is taken exactly if it fits, on its own ... */
  lemma DecimalInRange(n: nat)
    ensures ParseComponent(Decimal(n)) == if n <= MAX_UINT32 then Ok(n) else Err(OutOfRange)
  {
    var text := Decimal(n);
    assert TrimSpace(text) == text && text[|text| - 1] != '\'' by {
      DecimalIsClean(n);
      NoTrim(text);
    }
    ScanPrinted(n);
  }

  /** ... or beside the hardened bit. */
  lemma HardenedInRange(n: nat)
    ensures ParseComponent(Decimal(n) + "'") == if n < HARDENED then Ok(HARDENED + n) else Err(OutOfRange)
  {
    var text := Decimal(n) + "'";
    assert TrimSpace(text) == text && text[|text| - 1] == '\'' && text[..|text| - 1] == Decimal(n) by {
      DecimalIsClean(n);
      NoTrim(text);
    }
    assert TrimSpace(Decimal(n)) == Decimal(n) by {
      DecimalIsClean(n);
      NoTrim(Decimal(n));
    }
    ScanPrinted(n);
  }

  /** A sign is read; only minus zero is not out of range. */
  lemma SignsRead(n: nat)
    ensures ScanInt("-" + Decimal(n)) == Some(0 - n) && ScanInt("+" + Decimal(n)) == Some(n)
    ensures n > 0 ==> ParseComponent("-" + Decimal(n)) == Err(OutOfRange)
  {
    DecimalIsClean(n);
    if n > 0 {
      ScanDecimal(n);
    }
    assert ("-" + Decimal(n))[1..] == Decimal(n) && ("+" + Decimal(n))[1..] == Decimal(n);
    NoTrim("-" + Decimal(n));
  }

  /** A digit of a base up to 16, in either case. */
  function AnyDigit(d: nat, upper: bool): (c: char)
    requires d < 16
    ensures c != '_' && DigitValue(c) == d
  {
    if d < 10 then '0' + d as char else if upper then 'A' + (d - 10) as char else 'a' + (d - 10) as char
  }

  predicate PrefixedBase(base: nat) { base == 2 || base == 8 || base == 16 }

  /** All digits but the last, and the last one. */
  function Upper(n: nat, base: nat): nat
    requires PrefixedBase(base)
  {
    if base == 2 then n / 2 else if base == 8 then n / 8 else n / 16
  }

  function Lower(n: nat, base: nat): (d: nat)
    requires PrefixedBase(base)
    ensures d < base && Scaled(Upper(n, base), base) + d == n && (n > 0 ==> Upper(n, base) < n)
  {
    if base == 2 then n % 2 else if base == 8 then n % 8 else n % 16
  }

  /** A number in one of these bases, without its prefix. */
  function Numeral(n: nat, base: nat, upper: bool): (s: string)
    requires PrefixedBase(base)
    ensures s != ""
    decreases n
  {
    var last := [AnyDigit(Lower(n, base), upper)];
    if Upper(n, base) == 0 then last else Numeral(Upper(n, base), base, upper) + last
  }

  lemma {:induction false} ScanNumeral(n: nat, base: nat, upper: bool)
    requires PrefixedBase(base)
    ensures var r := ScanDigits(Numeral(n, base, upper), base, Scan(Digit, 0, 0, false));
            r.1 == "" && r.0.value == n && r.0.prev == Digit && r.0.count > 0 && !r.0.misplaced
    decreases n
  {
    var start, d := Scan(Digit, 0, 0, false), Lower(n, base);
    var tail := [AnyDigit(d, upper)];
    assert tail[1..] == "";
    if Upper(n, base) > 0 {
      ScanNumeral(Upper(n, base), base, upper);
      ScanOn(Numeral(Upper(n, base), base, upper), tail, base, start);
    }
  }

  /** The prefix decides the base. */
  lemma ScanPrefixed(text: string, rest: string, base: nat)
    requires |text| > 2 && text[0] == '0' && text[2..] == rest
    requires || (base == 2 && (text[1] == 'b' || text[1] == 'B')) || (base == 8 && (text[1] == 'o' || text[1] == 'O'))
             || (base == 16 && (text[1] == 'x' || text[1] == 'X'))
    ensures ScanNat(text) == Finish(ScanDigits(rest, base, Scan(Digit, 0, 0, false)), false)
  {
  }

  lemma PrefixRead(mark: char, base: nat, n: nat, upper: bool)
    requires || (base == 2 && (mark == 'b' || mark == 'B')) || (base == 8 && (mark == 'o' || mark == 'O'))
             || (base == 16 && (mark == 'x' || mark == 'X'))
    ensures ScanNat(['0', mark] + Numeral(n, base, upper)) == Some(n)
  {
    var text, rest := ['0', mark] + Numeral(n, base, upper), Numeral(n, base, upper);
    assert text[2..] == rest;
    ScanPrefixed(text, rest, base);
    ScanNumeral(n, base, upper);
  }

  /** Without a mark a leading zero means octal. */
  lemma ZeroRead(n: nat, upper: bool)
    ensures ScanNat(['0'] + Numeral(n, 8, upper)) == Some(n)
  {
    var text := ['0'] + Numeral(n, 8, upper);
    assert text[1..] == Numeral(n, 8, upper);
    OctalDigits(n, upper);
    ScanNumeral(n, 8, upper);
  }

  /** Binary, octal and hexadecimal numbers are read with their prefixes, whatever the case of prefix and digits. */
  lemma PrefixesRead(n: nat, upper: bool)
    ensures forall mark :: mark in "bB" ==> ScanNat(['0', mark] + Numeral(n, 2, upper)) == Some(n)
    ensures forall mark :: mark in "oO" ==> ScanNat(['0', mark] + Numeral(n, 8, upper)) == Some(n)
    ensures forall mark :: mark in "xX" ==> ScanNat(['0', mark] + Numeral(n, 16, upper)) == Some(n)
    ensures ScanNat(['0'] + Numeral(n, 8, upper)) == Some(n)
  {
    forall mark | mark in "bB"
      ensures ScanNat(['0', mark] + Numeral(n, 2, upper)) == Some(n)
    {
      PrefixRead(mark, 2, n, upper);
    }
    forall mark | mark in "oO"
      ensures ScanNat(['0', mark] + Numeral(n, 8, upper)) == Some(n)
    {
      PrefixRead(mark, 8, n, upper);
    }
    forall mark | mark in "xX"
      ensures ScanNat(['0', mark] + Numeral(n, 16, upper)) == Some(n)
    {
      PrefixRead(mark, 16, n, upper);
    }
    ZeroRead(n, upper);
  }

  lemma {:induction false} OctalDigits(n: nat, upper: bool)
    ensures '0' <= Numeral(n, 8, upper)[0] <= '7'
    decreases n
  {
    if Upper(n, 8) > 0 {
      OctalDigits(Upper(n, 8), upper);
    }
  }

  /** After a separator the next digit is read as after a digit. */
  lemma ScanSeparator(t: string, base: nat, st: Scan)
    requires st.prev == Digit && t != "" && t[0] != '_' && DigitValue(t[0]) < base
    ensures ScanDigits("_" + t, base, st) == ScanDigits(t, base, st)
  {
    assert ("_" + t)[1..] == t;
  }

  /** One separator between digits changes nothing. */
  lemma SeparatorRead(s: string, t: string, base: nat, st: Scan)
    requires var r := ScanDigits(s, base, st); r.1 == "" && r.0.prev == Digit
    requires t != "" && t[0] != '_' && DigitValue(t[0]) < base
    ensures ScanDigits(s + ("_" + t), base, st) == ScanDigits(s + t, base, st)
  {
    ScanOn(s, t, base, st);
    ScanOn(s, "_" + t, base, st);
    ScanSeparator(t, base, ScanDigits(s, base, st).0);
  }

  /** A separator at the end makes a number invalid. */
  lemma SeparatorLast(s: string, base: nat, st: Scan, octal: bool)
    requires ScanDigits(s, base, st).1 == ""
    ensures Finish(ScanDigits(s + "_", base, st), octal).None?
  {
    ScanOn(s, "_", base, st);
    assert "_"[1..] == "";
  }
}
