/**
  * The SemanticDB symbol grammar: a global symbol is an owner followed by one descriptor, and is
  * parsed backwards from its end.
  *
  * Unicode letter and digit tests are parameters; all that is used of them is that none of the
  * eight grammar characters is a letter or a digit.
  */
module Symbols {
  import opened Options

  const CONSTRUCTOR_NAME := "<init>"

  /** The last descriptor of a global symbol, with its decoded name. */
  datatype Descriptor =
    | Term(name: string)
    | Method(name: string, disambiguator: string)
    | Type(name: string)
    | Package(name: string)
    | Parameter(name: string)
    | TypeParameter(name: string)

  predicate IsNameBoundary(c: char) {
    c == '/' || c == '.' || c == '#' || c == '(' || c == ')' || c == '[' || c == ']' || c == '`'
  }

  datatype CharTests = CharTests(alphabetic: char -> bool, numeric: char -> bool)

  type Unicode = t: CharTests | forall c | IsNameBoundary(c) :: !t.alphabetic(c) && !t.numeric(c)
    witness CharTests(c => false, c => false)

  predicate Lacks(s: string, c: char) {
    forall i | 0 <= i < |s| :: s[i] != c
  }

  predicate IsSetterName(name: string) {
    |name| > 2 && name[|name| - 2..] == "_="
  }

  predicate IsLocal(symbol: string) {
    |symbol| > 5 && "local" <= symbol && forall i | 0 <= i < |symbol| :: !IsNameBoundary(symbol[i])
  }

  // ---------------------------------------------------------------------------
  // Printing
  // ---------------------------------------------------------------------------

  predicate IsIdStart(u: Unicode, c: char) {
    u.alphabetic(c) || c == '_' || c == '$'
  }

  predicate IsIdPart(u: Unicode, c: char) {
    IsIdStart(u, c) || u.numeric(c)
  }

  predicate IsPlain(u: Unicode, name: string) {
    name != "" && IsIdStart(u, name[0]) && forall i | 0 <= i < |name| :: IsIdPart(u, name[i])
  }

  /** A name in descriptor syntax: in backticks unless it is a plain identifier. */
  function EncodeName(u: Unicode, name: string): string {
    if IsPlain(u, name) then name else "`" + name + "`"
  }

  function Print(u: Unicode, d: Descriptor): string {
    var name := EncodeName(u, d.name);
    match d
    case Term(_) => name + "."
    case Method(_, disambiguator) => name + disambiguator + "."
    case Type(_) => name + "#"
    case Package(_) => name + "/"
    case Parameter(_) => "(" + name + ")"
    case TypeParameter(_) => "[" + name + "]"
  }

  // ---------------------------------------------------------------------------
  // Parsing backwards. Positions are exclusive ends: `n` stands for the prefix `s[..n]`.
  // ---------------------------------------------------------------------------

  /** The last occurrence of `target` in `s[..n]`. */
  function LastIndex(s: string, target: char, n: nat): (r: Option<nat>)
    requires n <= |s|
    ensures r.Some? ==> r.value < n && s[r.value] == target && forall i | r.value < i < n :: s[i] != target
    ensures r.None? ==> forall i | 0 <= i < n :: s[i] != target
  {
    if n == 0 then None else if s[n - 1] == target then Some(n - 1) else LastIndex(s, target, n - 1)
  }

  /** Where the run of name characters that ends at `n` begins. */
  function NameStart(s: string, n: nat): (start: nat)
    requires n <= |s|
    ensures start <= n && forall i | start <= i < n :: !IsNameBoundary(s[i])
    ensures start == 0 || IsNameBoundary(s[start - 1])
  {
    if n == 0 || IsNameBoundary(s[n - 1]) then n else NameStart(s, n - 1)
  }

  /** The (possibly backticked) name that ends at `n`: where it starts, and its decoding. */
  function ReadName(s: string, n: nat): (r: Option<(nat, string)>)
    requires n <= |s|
    ensures r.Some? ==> r.value.0 < n && Lacks(r.value.1, '`')
  {
    if n == 0 then None
    else if s[n - 1] == '`' then
      var open := LastIndex(s, '`', n - 1);
      if open.None? then None else Some((open.value, s[open.value + 1..n - 1]))
    else
      var start := NameStart(s, n);
      if start == n then None else Some((start, s[start..n]))
  }

  function SplitLast(symbol: string): (r: Option<(string, Descriptor)>)
    ensures r.Some? ==> r.value.0 < symbol && Lacks(r.value.1.name, '`')
  {
    var n := |symbol|;
    if n == 0 || IsLocal(symbol) then None
    else if symbol[n - 1] == '.' && n >= 2 && symbol[n - 2] == ')' then
      var open := LastIndex(symbol, '(', n - 1);
      if open.None? then None
      else
        var read := ReadName(symbol, open.value);
        if read.None? then None
        else Some((symbol[..read.value.0], Method(read.value.1, symbol[open.value..n - 1])))
    else
      var read := ReadName(symbol, n - 1);
      if read.None? then None
      else
        var (start, name) := read.value;
        match symbol[n - 1]
        case ')' => if start > 0 && symbol[start - 1] == '('
                    then Some((symbol[..start - 1], Parameter(name))) else None
        case ']' => if start > 0 && symbol[start - 1] == '['
                    then Some((symbol[..start - 1], TypeParameter(name))) else None
        case c => if c == '/' || c == '#' || c == '.' then Some((symbol[..start], Closed(name, c))) else None
  }

  /** The descriptor that a name and its closing character make. */
  function Closed(name: string, terminator: char): Descriptor {
    if terminator == '/' then Package(name) else if terminator == '#' then Type(name) else Term(name)
  }

  /** Backward scan for a character, as a loop over signed indices. */
  method LastIndexOf(chars: string, target: char, start: int) returns (r: Option<nat>)
    requires -1 <= start < |chars|
    ensures r == LastIndex(chars, target, start + 1)
    ensures r.Some? <==> target in chars[..start + 1]
  {
    var i := start;
    while i >= 0
      invariant -1 <= i <= start
      invariant LastIndex(chars, target, start + 1) == LastIndex(chars, target, i + 1)
    {
      if chars[i] == target {
        return Some(i);
      }
      i := i - 1;
    }
    return None;
  }

  /** Backward scan for a name that ends at `end` inclusive. */
  method ReadNameBackwards(chars: string, end: int) returns (r: Option<(nat, string)>)
    requires -1 <= end < |chars|
    ensures r == ReadName(chars, end + 1)
    ensures r.Some? && chars[end] != '`' ==>
              r.value.1 == chars[r.value.0..end + 1] && (r.value.0 == 0 || IsNameBoundary(chars[r.value.0 - 1]))
    ensures r.Some? && chars[end] == '`' ==> "`" + r.value.1 + "`" == chars[r.value.0..end + 1]
  {
    if end < 0 {
      return None;
    }
    if chars[end] == '`' {
      var open := LastIndexOf(chars, '`', end - 1);
      return if open.None? then None else Some((open.value, chars[open.value + 1..end]));
    }
    var i := end;
    while i >= 0 && !IsNameBoundary(chars[i])
      invariant -1 <= i <= end
      invariant NameStart(chars, end + 1) == NameStart(chars, i + 1)
    {
      i := i - 1;
    }
    if i == end {
      return None;
    }
    return Some((i + 1, chars[i + 1..end + 1]));
  }

  // ---------------------------------------------------------------------------
  // Round trip: exactly which printed symbols parse back.
  // ---------------------------------------------------------------------------

  predicate EndsAtBoundary(owner: string) {
    owner == "" || IsNameBoundary(owner[|owner| - 1])
  }

  predicate IsDisambiguator(d: string) {
    |d| >= 2 && d[0] == '(' && d[|d| - 1] == ')' && forall i | 0 < i < |d| :: d[i] != '('
  }

  /** A parameter name is fenced by its own bracket; any other plain name needs an owner that ends it. */
  predicate ParsesBack(u: Unicode, owner: string, d: Descriptor) {
    && Lacks(d.name, '`')
    && (d.Method? ==> IsDisambiguator(d.disambiguator))
    && (IsPlain(u, d.name) && !d.Parameter? && !d.TypeParameter? ==> EndsAtBoundary(owner))
  }

  lemma {:induction false} LastIndexIs(s: string, target: char, n: nat, at: nat)
    requires at < n <= |s| && s[at] == target && forall i | at < i < n :: s[i] != target
    ensures LastIndex(s, target, n) == Some(at)
    decreases n
  {
    if at < n - 1 {
      LastIndexIs(s, target, n - 1, at);
    }
  }

  lemma {:induction false} PlainRun(s: string, k: nat, n: nat)
    requires k <= n <= |s| && forall i | k <= i < n :: !IsNameBoundary(s[i])
    ensures NameStart(s, n) == NameStart(s, k)
    decreases n
  {
    if k < n {
      PlainRun(s, k, n - 1);
    }
  }

  /** Reading a name looks only at the prefix it is given. */
  lemma {:induction false} PrefixLastIndex(s: string, target: char, n: nat, m: nat)
    requires n <= m <= |s|
    ensures LastIndex(s[..m], target, n) == LastIndex(s, target, n)
    decreases n
  {
    if n > 0 {
      PrefixLastIndex(s, target, n - 1, m);
    }
  }

  lemma {:induction false} PrefixNameStart(s: string, n: nat, m: nat)
    requires n <= m <= |s|
    ensures NameStart(s[..m], n) == NameStart(s, n)
    decreases n
  {
    if n > 0 {
      PrefixNameStart(s, n - 1, m);
    }
  }

  lemma PrefixRead(s: string, n: nat)
    requires n <= |s|
    ensures ReadName(s, n) == ReadName(s[..n], n)
  {
    if n > 0 {
      var open, start := LastIndex(s, '`', n - 1), NameStart(s, n);
      PrefixSlice(s, n, start, n);
      if open.Some? {
        PrefixSlice(s, n, open.value + 1, n - 1);
      }
      PrefixLastIndex(s, '`', n - 1, n);
      PrefixNameStart(s, n, n);
    }
  }

  lemma PrefixSlice(s: string, n: nat, a: nat, b: nat)
    requires a <= b <= n <= |s|
    ensures s[..n][a..b] == s[a..b]
  {
  }

  /** Reading an unquoted name off the end of an owner: it extends to the nearest boundary. */
  lemma ReadPlain(owner: string, name: string)
    requires name != "" && forall i | 0 <= i < |name| :: !IsNameBoundary(name[i])
    ensures var s := owner + name;
            var start := NameStart(s, |owner|);
            && ReadName(s, |s|) == Some((start, s[start..]))
            && (EndsAtBoundary(owner) ==> ReadName(s, |s|) == Some((|owner|, name)))
            && !IsNameBoundary(s[|s| - 1])
  {
    var s := owner + name;
    PlainRun(s, |owner|, |s|);
    assert s[|owner|..] == name && s[NameStart(s, |s|)..|s|] == s[NameStart(s, |s|)..];
  }

  lemma ReadQuoted(owner: string, name: string)
    requires Lacks(name, '`')
    ensures var s := owner + "`" + name + "`";
            ReadName(s, |s|) == Some((|owner|, name)) && s[|s| - 1] == '`'
  {
    var s := owner + "`" + name + "`";
    var k := |owner|;
    assert s[k + 1..|s| - 1] == name;
    LastIndexIs(s, '`', |s| - 1, k);
  }

  /** Reading a name off the end of an owner followed by an encoded name. */
  lemma ReadEncoded(u: Unicode, owner: string, name: string)
    requires Lacks(name, '`')
    ensures var head := owner + EncodeName(u, name);
            var read := ReadName(head, |head|);
            && read.Some? && read.value.0 <= |owner|
            && head[..read.value.0] == owner[..read.value.0]
            && (EndsAtBoundary(owner) || !IsPlain(u, name) ==> read == Some((|owner|, name)) && head[..|owner|] == owner)
            && (IsPlain(u, name) ==> EndsAtBoundary(head[..read.value.0]))
            && head != "" && head[|head| - 1] != ')'
  {
    if IsPlain(u, name) {
      ReadPlain(owner, name);
    } else {
      ReadQuoted(owner, name);
      assert owner + EncodeName(u, name) == owner + "`" + name + "`";
    }
  }

  lemma NotLocal(symbol: string)
    requires symbol != "" && IsNameBoundary(symbol[|symbol| - 1])
    ensures !IsLocal(symbol)
  {
  }

  /** A descriptor that is a name and one closing character. */
  lemma SplitClosed(head: string, terminator: char)
    requires terminator == '/' || terminator == '#' || terminator == '.'
    requires head != "" && head[|head| - 1] != ')' && ReadName(head, |head|).Some?
    ensures var (start, name) := ReadName(head, |head|).value;
            SplitLast(head + [terminator]) == Some((head[..start], Closed(name, terminator)))
  {
    var s := head + [terminator];
    NotLocal(s);
    assert s[..|head|] == head;
    PrefixRead(s, |head|);
    var (start, name) := ReadName(head, |head|).value;
    assert s[..start] == head[..start];
  }

  lemma SplitTerminated(u: Unicode, owner: string, name: string, terminator: char)
    requires (terminator == '/' || terminator == '#' || terminator == '.') && Lacks(name, '`')
    ensures var split := SplitLast(owner + EncodeName(u, name) + [terminator]);
            && split.Some?
            && split.value.0 <= owner
            && split.value.1 == Closed(split.value.1.name, terminator)
            && (EndsAtBoundary(owner) || !IsPlain(u, name) ==> split.value == (owner, Closed(name, terminator)))
            && (IsPlain(u, name) ==> EndsAtBoundary(split.value.0))
  {
    ReadEncoded(u, owner, name);
    SplitClosed(owner + EncodeName(u, name), terminator);
  }

  lemma ReadDisambiguated(head: string, disambiguator: string)
    requires IsDisambiguator(disambiguator)
    ensures var s := head + disambiguator + ".";
            && !IsLocal(s)
            && s[|s| - 2] == ')'
            && LastIndex(s, '(', |s| - 1) == Some(|head|)
            && s[|head|..|s| - 1] == disambiguator
            && s[..|head|] == head
  {
    var s := head + disambiguator + ".";
    NotLocal(s);
    forall i | |head| <= i < |s| - 1 ensures s[i] == disambiguator[i - |head|] {
    }
    LastIndexIs(s, '(', |s| - 1, |head|);
  }

  lemma SplitDisambiguated(head: string, disambiguator: string)
    requires IsDisambiguator(disambiguator) && ReadName(head, |head|).Some?
    ensures var (start, name) := ReadName(head, |head|).value;
            SplitLast(head + disambiguator + ".") == Some((head[..start], Method(name, disambiguator)))
  {
    var s := head + disambiguator + ".";
    ReadDisambiguated(head, disambiguator);
    PrefixRead(s, |head|);
    var (start, name) := ReadName(head, |head|).value;
    assert s[..start] == head[..start];
  }

  lemma SplitMethod(u: Unicode, owner: string, name: string, disambiguator: string)
    requires Lacks(name, '`') && IsDisambiguator(disambiguator)
    ensures var split := SplitLast(owner + EncodeName(u, name) + disambiguator + ".");
            && (EndsAtBoundary(owner) || !IsPlain(u, name) ==> split == Some((owner, Method(name, disambiguator))))
            && (IsPlain(u, name) && split.Some? ==> EndsAtBoundary(split.value.0))
  {
    ReadEncoded(u, owner, name);
    SplitDisambiguated(owner + EncodeName(u, name), disambiguator);
  }

  /** Descriptors that fence their name with a bracket of their own. */
  lemma ReadFenced(u: Unicode, owner: string, name: string, open: char, close: char)
    requires Lacks(name, '`') && IsNameBoundary(open) && IsNameBoundary(close)
    ensures var s := owner + [open] + EncodeName(u, name) + [close];
            && !IsLocal(s)
            && ReadName(s, |s| - 1) == Some((|owner| + 1, name))
            && s[|owner|] == open && s[..|owner|] == owner
  {
    var fenced := owner + [open];
    var head := fenced + EncodeName(u, name);
    var s := head + [close];
    NotLocal(s);
    ReadEncoded(u, fenced, name);
    assert s[..|head|] == head;
    PrefixRead(s, |head|);
  }

  lemma SplitParameter(u: Unicode, owner: string, name: string)
    requires Lacks(name, '`')
    ensures SplitLast(owner + ['('] + EncodeName(u, name) + [')']) == Some((owner, Parameter(name)))
  {
    ReadFenced(u, owner, name, '(', ')');
  }

  lemma SplitTypeParameter(u: Unicode, owner: string, name: string)
    requires Lacks(name, '`')
    ensures SplitLast(owner + ['['] + EncodeName(u, name) + [']']) == Some((owner, TypeParameter(name)))
  {
    ReadFenced(u, owner, name, '[', ']');
  }

  lemma DecodedDisambiguator(s: string)
    requires SplitLast(s).Some? && SplitLast(s).value.1.Method?
    ensures IsDisambiguator(SplitLast(s).value.1.disambiguator)
  {
    var open := LastIndex(s, '(', |s| - 1).value;
    var d := s[open..|s| - 1];
    assert forall i | 0 <= i < |d| :: d[i] == s[open + i];
  }

  function Terminator(d: Descriptor): char {
    match d
    case Type(_) => '#'
    case Package(_) => '/'
    case Parameter(_) => ')'
    case TypeParameter(_) => ']'
    case _ => '.'
  }

  lemma PrintThenSplitTerminated(u: Unicode, owner: string, d: Descriptor)
    requires Lacks(d.name, '`') && (d.Term? || d.Type? || d.Package?)
    ensures SplitLast(owner + Print(u, d)) == Some((owner, d)) <==> (IsPlain(u, d.name) ==> EndsAtBoundary(owner))
  {
    assert owner + Print(u, d) == owner + EncodeName(u, d.name) + [Terminator(d)];
    SplitTerminated(u, owner, d.name, Terminator(d));
  }

  lemma PrintThenSplitMethod(u: Unicode, owner: string, d: Descriptor)
    requires Lacks(d.name, '`') && d.Method?
    ensures SplitLast(owner + Print(u, d)) == Some((owner, d)) <==>
            IsDisambiguator(d.disambiguator) && (IsPlain(u, d.name) ==> EndsAtBoundary(owner))
  {
    var s := owner + EncodeName(u, d.name) + d.disambiguator + ".";
    assert owner + Print(u, d) == s;
    if IsDisambiguator(d.disambiguator) {
      SplitMethod(u, owner, d.name, d.disambiguator);
    } else if SplitLast(s) == Some((owner, d)) {
      DecodedDisambiguator(s);
    }
  }

  /** Parsing undoes printing for exactly the owners and descriptors that `ParsesBack` admits. */
  lemma PrintThenSplit(u: Unicode, owner: string, d: Descriptor)
    ensures SplitLast(owner + Print(u, d)) == Some((owner, d)) <==> ParsesBack(u, owner, d)
  {
    if !Lacks(d.name, '`') {
    } else if d.Method? {
      PrintThenSplitMethod(u, owner, d);
    } else if d.Parameter? {
      assert owner + Print(u, d) == owner + ['('] + EncodeName(u, d.name) + [')'];
      SplitParameter(u, owner, d.name);
    } else if d.TypeParameter? {
      assert owner + Print(u, d) == owner + ['['] + EncodeName(u, d.name) + [']'];
      SplitTypeParameter(u, owner, d.name);
    } else {
      PrintThenSplitTerminated(u, owner, d);
    }
  }

  // ---------------------------------------------------------------------------
  // The grammar: what every symbol parses to
  // ---------------------------------------------------------------------------

  /** The characters that set names apart. */
  predicate Delimits(c: char) {
    c in "/.#()[]`"
  }

  lemma BoundaryMeans(c: char)
    ensures IsNameBoundary(c) <==> Delimits(c)
  {
    var all := "/.#()[]`";
    assert forall i | 0 <= i < 8 :: all[i] in all;
    assert all[0] == '/' && all[1] == '.' && all[2] == '#' && all[3] == '(';
    assert all[4] == ')' && all[5] == '[' && all[6] == ']' && all[7] == '`';
  }

  predicate PlainAfter(before: string, name: string) {
    && name != "" && (before == "" || Delimits(before[|before| - 1]))
    && forall i | 0 <= i < |name| :: !Delimits(name[i])
  }

  lemma PlainAfterMeans(before: string, name: string)
    ensures PlainAfter(before, name) <==>
            name != "" && EndsAtBoundary(before) && forall i | 0 <= i < |name| :: !IsNameBoundary(name[i])
  {
    forall c ensures IsNameBoundary(c) <==> Delimits(c) {
      BoundaryMeans(c);
    }
  }

  /** A name is spelled in backticks, or as it is after a boundary if it holds no boundary character itself. */
  predicate SpelledAfter(before: string, raw: string, name: string) {
    || (raw == "`" + name + "`" && Lacks(name, '`'))
    || (raw == name && PlainAfter(before, name))
  }

  /** An owner, a spelled name, and what marks the kind of descriptor. */
  ghost predicate Decomposes(symbol: string, owner: string, d: Descriptor, raw: string) {
    match d
    case Term(name) => symbol == owner + raw + ['.'] && SpelledAfter(owner, raw, name)
    case Type(name) => symbol == owner + raw + ['#'] && SpelledAfter(owner, raw, name)
    case Package(name) => symbol == owner + raw + ['/'] && SpelledAfter(owner, raw, name)
    case Method(name, disambiguator) =>
      symbol == owner + raw + disambiguator + "." && IsDisambiguator(disambiguator) && SpelledAfter(owner, raw, name)
    case Parameter(name) => symbol == owner + ['('] + raw + [')'] && SpelledAfter(owner + ['('], raw, name)
    case TypeParameter(name) => symbol == owner + ['['] + raw + [']'] && SpelledAfter(owner + ['['], raw, name)
  }

  lemma ReadSpelled(before: string, raw: string, name: string)
    requires SpelledAfter(before, raw, name)
    ensures var head := before + raw;
            && ReadName(head, |head|) == Some((|before|, name)) && head[..|before|] == before
            && head != "" && head[|head| - 1] != ')'
  {
    if raw == "`" + name + "`" && Lacks(name, '`') {
      ReadQuoted(before, name);
      assert before + raw == before + "`" + name + "`";
    } else {
      PlainAfterMeans(before, name);
      ReadPlain(before, name);
    }
  }

  lemma QuotedMeans(head: string)
    requires ReadName(head, |head|).Some? && head[|head| - 1] == '`'
    ensures var (start, name) := ReadName(head, |head|).value; head[start..] == "`" + name + "`" && Lacks(name, '`')
  {
    var start := ReadName(head, |head|).value.0;
    assert head[start..] == "`" + head[start + 1..|head| - 1] + "`";
  }

  lemma PlainMeans(head: string)
    requires ReadName(head, |head|).Some? && head[|head| - 1] != '`'
    ensures var (start, name) := ReadName(head, |head|).value; head[start..] == name && PlainAfter(head[..start], name)
  {
    var start := NameStart(head, |head|);
    var name := head[start..];
    assert head[start..|head|] == name;
    assert forall i | 0 <= i < |name| :: name[i] == head[start + i];
    PlainAfterMeans(head[..start], name);
  }

  lemma ReadMeans(head: string)
    requires ReadName(head, |head|).Some?
    ensures var (start, name) := ReadName(head, |head|).value; SpelledAfter(head[..start], head[start..], name)
  {
    if head[|head| - 1] == '`' {
      QuotedMeans(head);
    } else {
      PlainMeans(head);
    }
  }

  /** Reading off a proper prefix. */
  lemma ReadPrefix(s: string, n: nat)
    requires n <= |s|
    ensures ReadName(s, n) == ReadName(s[..n], |s[..n]|)
  {
    PrefixRead(s, n);
  }

  lemma DecomposedSplits(symbol: string, owner: string, d: Descriptor, raw: string)
    requires Decomposes(symbol, owner, d, raw)
    ensures SplitLast(symbol) == Some((owner, d))
  {
    match d
    case Method(name, disambiguator) =>
      ReadSpelled(owner, raw, name);
      SplitDisambiguated(owner + raw, disambiguator);
    case Parameter(name) => FencedSplits(symbol, owner, raw, name, '(', ')');
    case TypeParameter(name) => FencedSplits(symbol, owner, raw, name, '[', ']');
    case _ =>
      ReadSpelled(owner, raw, d.name);
      SplitClosed(owner + raw, Terminator(d));
  }

  lemma {:induction false} FencedRead(symbol: string, owner: string, raw: string, name: string, open: char, close: char)
    requires IsNameBoundary(close) && symbol == owner + [open] + raw + [close] && SpelledAfter(owner + [open], raw, name)
    ensures !IsLocal(symbol) && |symbol| == |owner| + |raw| + 2
    ensures ReadName(symbol, |symbol| - 1) == Some((|owner| + 1, name))
    ensures symbol[|owner|] == open && symbol[..|owner|] == owner && symbol[|symbol| - 1] == close
  {
    var head := owner + [open] + raw;
    NotLocal(symbol);
    assert symbol[..|head|] == head;
    ReadPrefix(symbol, |head|);
    ReadSpelled(owner + [open], raw, name);
  }

  lemma {:induction false} FencedSplits(symbol: string, owner: string, raw: string, name: string, open: char, close: char)
    requires (open == '(' && close == ')') || (open == '[' && close == ']')
    requires symbol == owner + [open] + raw + [close] && SpelledAfter(owner + [open], raw, name)
    ensures SplitLast(symbol) == Some((owner, if open == '(' then Parameter(name) else TypeParameter(name)))
  {
    FencedRead(symbol, owner, raw, name, open, close);
  }

  /** The name read before the last character of a symbol, and what is in front of it. */
  lemma {:induction false} LastName(symbol: string, n: nat) returns (raw: string)
    requires n <= |symbol| && ReadName(symbol, n).Some?
    ensures var (start, name) := ReadName(symbol, n).value;
            start <= n && symbol[..n] == symbol[..start] + raw && SpelledAfter(symbol[..start], raw, name)
  {
    var head := symbol[..n];
    ReadPrefix(symbol, n);
    ReadMeans(head);
    var (start, _) := ReadName(head, |head|).value;
    raw := head[start..];
    assert head[..start] == symbol[..start] && head == head[..start] + raw;
  }

  /** What a parse other than a method's has looked at. */
  lemma {:induction false} SplitParts(symbol: string)
    requires SplitLast(symbol).Some? && !SplitLast(symbol).value.1.Method?
    ensures var n := |symbol|;
            var read := ReadName(symbol, n - 1);
            var (owner, d) := SplitLast(symbol).value;
            && n > 0 && read.Some? && d.name == read.value.1
            && (d.Parameter? ==> read.value.0 > 0 && symbol[read.value.0 - 1] == '(' && symbol[n - 1] == ')'
                                 && owner == symbol[..read.value.0 - 1])
            && (d.TypeParameter? ==> read.value.0 > 0 && symbol[read.value.0 - 1] == '[' && symbol[n - 1] == ']'
                                     && owner == symbol[..read.value.0 - 1])
            && (!d.Parameter? && !d.TypeParameter? ==> owner == symbol[..read.value.0] && symbol[n - 1] == Terminator(d))
  {
  }

  lemma {:induction false} SplitDecomposes(symbol: string) returns (raw: string)
    requires SplitLast(symbol).Some?
    ensures var (owner, d) := SplitLast(symbol).value; Decomposes(symbol, owner, d, raw)
  {
    var (owner, d) := SplitLast(symbol).value;
    if d.Method? {
      raw := MethodDecomposes(symbol);
    } else {
      SplitParts(symbol);
      var n := |symbol|;
      raw := LastName(symbol, n - 1);
      var start := ReadName(symbol, n - 1).value.0;
      ClosedParts(symbol, owner, d, raw, start);
    }
  }

  lemma {:induction false} ClosedParts(symbol: string, owner: string, d: Descriptor, raw: string, start: nat)
    requires symbol != "" && start < |symbol| && !d.Method?
    requires symbol[..|symbol| - 1] == symbol[..start] + raw && SpelledAfter(symbol[..start], raw, d.name)
    requires symbol[|symbol| - 1] == Terminator(d)
    requires if d.Parameter? then start > 0 && symbol[start - 1] == '(' && owner == symbol[..start - 1]
             else if d.TypeParameter? then start > 0 && symbol[start - 1] == '[' && owner == symbol[..start - 1]
             else owner == symbol[..start]
    ensures Decomposes(symbol, owner, d, raw)
  {
    assert symbol == symbol[..|symbol| - 1] + [symbol[|symbol| - 1]];
    if d.Parameter? || d.TypeParameter? {
      assert symbol[..start] == owner + [symbol[start - 1]];
    }
  }

  lemma {:induction false} MethodParts(symbol: string)
    requires SplitLast(symbol).Some? && SplitLast(symbol).value.1.Method?
    ensures var n := |symbol|;
            && n >= 2 && symbol[n - 1] == '.'
            && var open := LastIndex(symbol, '(', n - 1);
            && open.Some? && ReadName(symbol, open.value).Some?
            && var (owner, d) := SplitLast(symbol).value;
            && d.name == ReadName(symbol, open.value).value.1 && d.disambiguator == symbol[open.value..n - 1]
            && owner == symbol[..ReadName(symbol, open.value).value.0]
  {
  }

  lemma {:induction false} MethodDecomposes(symbol: string) returns (raw: string)
    requires SplitLast(symbol).Some? && SplitLast(symbol).value.1.Method?
    ensures var (owner, d) := SplitLast(symbol).value; Decomposes(symbol, owner, d, raw)
  {
    var (owner, d) := SplitLast(symbol).value;
    var n := |symbol|;
    MethodParts(symbol);
    DecodedDisambiguator(symbol);
    var open := LastIndex(symbol, '(', n - 1).value;
    raw := LastName(symbol, open);
    MethodSpelled(symbol, owner, d, raw, open);
  }

  lemma {:induction false} MethodSpelled(symbol: string, owner: string, d: Descriptor, raw: string, open: nat)
    requires d.Method? && open < |symbol| - 1 && symbol[..open] == owner + raw && symbol[|symbol| - 1] == '.'
    requires d.disambiguator == symbol[open..|symbol| - 1] && IsDisambiguator(d.disambiguator) && SpelledAfter(owner, raw, d.name)
    ensures Decomposes(symbol, owner, d, raw)
  {
    assert symbol == symbol[..open] + symbol[open..|symbol| - 1] + [symbol[|symbol| - 1]];
    assert symbol == owner + raw + d.disambiguator + ".";
  }

  /** Parsing, for every symbol: it gives an owner and a descriptor exactly if the symbol is made of them. */
  lemma SplitMeans(symbol: string, owner: string, d: Descriptor)
    ensures SplitLast(symbol) == Some((owner, d)) <==> exists raw :: Decomposes(symbol, owner, d, raw)
  {
    if SplitLast(symbol) == Some((owner, d)) {
      var raw := SplitDecomposes(symbol);
    }
    if raw :| Decomposes(symbol, owner, d, raw) {
      DecomposedSplits(symbol, owner, d, raw);
    }
  }

  /** Letters, `_` and `$`, and after the first character digits: such a name is printed as it is, any other
      in backticks. */
  lemma EncodeMeans(u: Unicode, name: string)
    ensures var plain := name != "" && forall i | 0 <= i < |name| ::
                           u.alphabetic(name[i]) || name[i] == '_' || name[i] == '$' || (i > 0 && u.numeric(name[i]));
            EncodeName(u, name) == if plain then name else "`" + name + "`"
  {
  }

  // ---------------------------------------------------------------------------
  // Companions
  // ---------------------------------------------------------------------------

  /** `X#` for `X.` and back; nothing for other descriptors. */
  function Companion(u: Unicode, symbol: string): Option<string> {
    match SplitLast(symbol)
    case Some((owner, Type(name))) => Some(owner + EncodeName(u, name) + ".")
    case Some((owner, Term(name))) => Some(owner + EncodeName(u, name) + "#")
    case _ => None
  }

  /** The symbols with a companion that end in a dot are the terms; those that end in a hash are the types. */
  lemma {:induction false} CompanionKinds(u: Unicode, symbol: string)
    ensures symbol != "" && symbol[|symbol| - 1] == '.' && Companion(u, symbol).Some? <==>
            SplitLast(symbol).Some? && SplitLast(symbol).value.1.Term?
    ensures symbol != "" && symbol[|symbol| - 1] == '#' && Companion(u, symbol).Some? <==>
            SplitLast(symbol).Some? && SplitLast(symbol).value.1.Type?
  {
    if SplitLast(symbol).Some? {
      if SplitLast(symbol).value.1.Method? {
        MethodParts(symbol);
      } else {
        SplitParts(symbol);
      }
    }
  }

  /** A symbol that prints the way it parses. */
  predicate IsCanonical(u: Unicode, symbol: string) {
    var split := SplitLast(symbol);
    split.Some? && symbol == split.value.0 + Print(u, split.value.1)
  }

  /** A companion parses, is of the other kind, and its owner is no longer than the original's. */
  lemma CompanionSplit(u: Unicode, symbol: string)
    requires Companion(u, symbol).Some?
    ensures var (owner, d) := SplitLast(symbol).value;
            var other := SplitLast(Companion(u, symbol).value);
            && other.Some?
            && other.value.0 <= owner
            && other.value.1 == (if d.Type? then Term(other.value.1.name) else Type(other.value.1.name))
            && (EndsAtBoundary(owner) || !IsPlain(u, d.name) ==> other.value.0 == owner && other.value.1.name == d.name)
            && (IsPlain(u, d.name) ==> EndsAtBoundary(other.value.0))
  {
    var (owner, d) := SplitLast(symbol).value;
    SplitTerminated(u, owner, d.name, if d.Type? then '.' else '#');
  }

  lemma CanonicalInvolution(u: Unicode, symbol: string)
    requires Companion(u, symbol).Some? && IsCanonical(u, symbol)
    ensures Companion(u, Companion(u, symbol).value) == Some(symbol)
    ensures SplitLast(Companion(u, symbol).value).value.0 == SplitLast(symbol).value.0
  {
    var (owner, d) := SplitLast(symbol).value;
    CompanionSplit(u, symbol);
    assert symbol == owner + EncodeName(u, d.name) + [Terminator(d)];
    SplitTerminated(u, owner, d.name, Terminator(d));
  }

  lemma InvolutionIsCanonical(u: Unicode, symbol: string)
    requires Companion(u, symbol).Some? && Companion(u, Companion(u, symbol).value) == Some(symbol)
    ensures IsCanonical(u, symbol)
  {
    var (owner, d) := SplitLast(symbol).value;
    var other := SplitLast(Companion(u, symbol).value).value;
    CompanionSplit(u, symbol);
    assert symbol == other.0 + EncodeName(u, other.1.name) + [Terminator(d)];
    if IsPlain(u, d.name) {
      SplitTerminated(u, other.0, other.1.name, Terminator(d));
    }
    assert other.0 == owner && other.1.name == d.name;
    assert owner + Print(u, d) == owner + EncodeName(u, d.name) + [Terminator(d)];
  }

  /** Two companions lead back to the start exactly on canonical symbols, and then the owner is kept. */
  lemma CompanionInvolution(u: Unicode, symbol: string)
    requires Companion(u, symbol).Some?
    ensures Companion(u, Companion(u, symbol).value) == Some(symbol) <==> IsCanonical(u, symbol)
    ensures IsCanonical(u, symbol) ==>
              ImmediateOwner(Companion(u, symbol).value) == ImmediateOwner(symbol)
  {
    if IsCanonical(u, symbol) {
      CanonicalInvolution(u, symbol);
      CompanionSplit(u, symbol);
    } else if Companion(u, Companion(u, symbol).value) == Some(symbol) {
      InvolutionIsCanonical(u, symbol);
    }
  }

  /** A needlessly quoted name is lost on the way: its companion leads to the unquoted symbol. */
  lemma QuotedCompanionIsLost(u: Unicode)
    requires u.alphabetic('X')
    ensures Companion(u, "`X`#") == Some("X.") && Companion(u, "X.") == Some("X#") && !IsCanonical(u, "`X`#")
  {
    ReadQuoted("", "X");
    assert "" + "`" + "X" + "`" == "`X`" && "`X`" + ['#'] == "`X`#" && "`X`"[..0] == "";
    SplitClosed("`X`", '#');
    SplitTerminated(u, "", "X", '.');
    assert "" + EncodeName(u, "X") + ['.'] == "X." && "" + EncodeName(u, "X") + "." == "X.";
    assert "" + EncodeName(u, "X") + "#" == "X#" && "" + Print(u, Type("X")) == "X#";
  }

  // ---------------------------------------------------------------------------
  // Owner chains
  // ---------------------------------------------------------------------------

  /** All enclosing symbols from the outermost to the symbol itself. */
  function OwnerChain(symbol: string): (chain: seq<string>)
    ensures symbol != "" ==> chain != [] && chain[|chain| - 1] == symbol
    decreases |symbol|
  {
    if symbol == "" then []
    else
      match SplitLast(symbol)
      case None => [symbol]
      case Some((owner, _)) => OwnerChain(owner) + [symbol]
  }

  /** The chain without the symbol itself. */
  function Owners(symbol: string): seq<string> {
    var chain := OwnerChain(symbol);
    if chain == [] then [] else chain[..|chain| - 1]
  }

  function ImmediateOwner(symbol: string): string {
    var split := SplitLast(symbol);
    if split.Some? then split.value.0 else ""
  }

  function Reversed<T>(s: seq<T>): (r: seq<T>)
    ensures |r| == |s| && forall i | 0 <= i < |s| :: r[i] == s[|s| - 1 - i]
  {
    if s == [] then [] else Reversed(s[1..]) + [s[0]]
  }

  lemma ChainNext(cur: string, acc: seq<string>)
    requires cur != ""
    ensures OwnerChain(cur) + Reversed(acc)
            == if SplitLast(cur).None? then Reversed(acc + [cur]) else OwnerChain(SplitLast(cur).value.0) + Reversed(acc + [cur])
  {
    assert Reversed(acc + [cur]) == [cur] + Reversed(acc);
  }

  /** Collects the chain innermost-first, then reverses it. */
  method CollectOwnerChain(symbol: string) returns (chain: seq<string>)
    ensures chain == OwnerChain(symbol)
    ensures IsWholeChain(symbol, chain)
  {
    ChainIsLinked(symbol);
    if symbol == "" {
      return [];
    }
    if IsLocal(symbol) {
      return [symbol];
    }
    var acc: seq<string> := [];
    var cur := symbol;
    while cur != ""
      invariant OwnerChain(symbol) == OwnerChain(cur) + Reversed(acc)
      decreases |cur|
    {
      ChainNext(cur, acc);
      acc := acc + [cur];
      var split := SplitLast(cur);
      if split.None? {
        return Reversed(acc);
      }
      cur := split.value.0;
    }
    return Reversed(acc);
  }

  /** Each link of the chain is the immediate owner of the next. */
  predicate IsLink(outer: string, inner: string) {
    outer != "" && ImmediateOwner(inner) == outer
  }

  /** From a symbol without an owner to the symbol itself, each link the immediate owner of the next. */
  predicate IsWholeChain(symbol: string, chain: seq<string>) {
    if symbol == "" then chain == []
    else
      && chain != [] && chain[|chain| - 1] == symbol && ImmediateOwner(chain[0]) == ""
      && forall i | 0 < i < |chain| :: IsLink(chain[i - 1], chain[i])
  }

  lemma {:induction false} ChainIsLinked(symbol: string)
    ensures IsWholeChain(symbol, OwnerChain(symbol))
    decreases |symbol|
  {
    if symbol != "" && SplitLast(symbol).Some? {
      var owner := SplitLast(symbol).value.0;
      ChainIsLinked(owner);
      assert OwnerChain(symbol) == OwnerChain(owner) + [symbol];
    }
  }

  /** Every proper owner is a non-empty prefix of the immediate owner. */
  /** The proper owners are the chain without the symbol itself. */
  lemma {:induction false} OwnersAreAll(symbol: string)
    ensures if symbol == "" then Owners(symbol) == [] else IsWholeChain(symbol, Owners(symbol) + [symbol])
  {
    var chain := OwnerChain(symbol);
    ChainIsLinked(symbol);
    if symbol != "" {
      assert chain == chain[..|chain| - 1] + [symbol];
    }
  }

  lemma {:induction false} OwnersArePrefixes(symbol: string)
    ensures forall a | a in Owners(symbol) :: a != "" && a <= ImmediateOwner(symbol)
    decreases |symbol|
  {
    if symbol != "" && SplitLast(symbol).Some? {
      var owner := SplitLast(symbol).value.0;
      OwnersArePrefixes(owner);
      assert Owners(symbol) == OwnerChain(owner);
      assert owner != "" ==> OwnerChain(owner) == Owners(owner) + [owner];
      assert ImmediateOwner(owner) <= owner;
    }
  }
}
