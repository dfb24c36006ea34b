/**
  * The diagnostics router: build servers publish per file and build target, with a reset flag; the
  * client gets one merged list per file, and no clearing publish for a file that it never had anything
  * for.
  */
module Diagnostics {
  import opened Options
  import opened Words
  import opened Lookup
  import opened Slices

  // ---------------------------------------------------------------------------
  // Shapes
  // ---------------------------------------------------------------------------

  datatype Position<T> = Position(line: T, character: T)

  datatype Range<T> = Range(start: Position<T>, end: Position<T>)

  datatype Code = Number(number: int) | Text(text: string)

  datatype BspDiagnostic = BspDiagnostic(
    range: Option<Range<int>>, severity: Option<int>, code: Option<Code>, source: Option<string>, message: string)

  datatype Diagnostic = Diagnostic(
    range: Range<u32>, severity: Option<u32>, code: Option<Code>, source: Option<string>, message: string)

  datatype Publish = Publish(uri: string, target: Option<string>, diagnostics: seq<BspDiagnostic>, reset: bool)

  function ToLspCoordinate(n: int): u32 {
    if 0 <= n < 0x1_0000_0000 then n else 0
  }

  function ToLspPosition(p: Position<int>): Position<u32> {
    Position(ToLspCoordinate(p.line), ToLspCoordinate(p.character))
  }

  function ToLspSeverity(severity: int): u32 {
    if 1 <= severity <= 4 then severity else 3
  }

  function ToLsp(d: BspDiagnostic): Diagnostic {
    Diagnostic(
      match d.range {
        case Some(r) => Range(ToLspPosition(r.start), ToLspPosition(r.end))
        case None => Range(Position(0, 0), Position(0, 0))
      },
      if d.severity.Some? then Some(ToLspSeverity(d.severity.value)) else None,
      d.code, d.source, d.message)
  }

  /** Positions, severities and everything else that the client can represent come through as they are; a
      coordinate out of range becomes zero, an unknown severity "information", a missing range the origin. */
  lemma ConversionKeeps(d: BspDiagnostic)
    ensures var l := ToLsp(d);
            && l.message == d.message && l.source == d.source && l.code == d.code
            && (l.severity.Some? <==> d.severity.Some?)
            && (d.severity.Some? ==> 1 <= l.severity.value <= 4)
            && (d.severity.Some? && 1 <= d.severity.value <= 4 ==> l.severity == d.severity)
            && (d.severity.Some? && !(1 <= d.severity.value <= 4) ==> l.severity == Some(3))
            && (d.range.None? ==> l.range == Range(Position(0, 0), Position(0, 0)))
            && (d.range.Some? ==>
                  && KeepsPosition(d.range.value.start, l.range.start) && KeepsPosition(d.range.value.end, l.range.end))
  {
  }

  predicate KeepsPosition(p: Position<int>, l: Position<u32>) {
    && (0 <= p.line < 0x1_0000_0000 ==> l.line == p.line) && (!(0 <= p.line < 0x1_0000_0000) ==> l.line == 0)
    && (0 <= p.character < 0x1_0000_0000 ==> l.character == p.character) && (!(0 <= p.character < 0x1_0000_0000) ==> l.character == 0)
  }

  function ToLspAll(ds: seq<BspDiagnostic>): seq<Diagnostic> {
    seq(|ds|, i requires 0 <= i < |ds| => ToLsp(ds[i]))
  }

  /** A publish in the router's terms: the mapped file, a target name, converted diagnostics. */
  datatype Update = Update(file: string, target: string, incoming: seq<Diagnostic>, reset: bool)

  function UpdateOf(toFile: string -> string, p: Publish): Update {
    Update(toFile(p.uri), if p.target.Some? then p.target.value else "", ToLspAll(p.diagnostics), p.reset)
  }

  // ---------------------------------------------------------------------------
  // One file
  // ---------------------------------------------------------------------------

  type Slots = seq<(string, seq<Diagnostic>)>

  function TargetsOf(slots: Slots): (keys: seq<string>)
    ensures |keys| == |slots| && forall i | 0 <= i < |slots| :: keys[i] == slots[i].0
  {
    seq(|slots|, i requires 0 <= i < |slots| => slots[i].0)
  }

  function Merge(slots: Slots, u: Update): Slots {
    match Find(TargetsOf(slots), u.target)
    case Some(i) =>
      if u.reset then
        if u.incoming == [] then slots[..i] + slots[i + 1..] else slots[i := (slots[i].0, u.incoming)]
      else slots[i := (slots[i].0, slots[i].1 + u.incoming)]
    case None =>
      if u.reset && u.incoming == [] then slots else slots + [(u.target, u.incoming)]
  }

  function Union(slots: Slots): seq<Diagnostic>
    decreases |slots|
  {
    if slots == [] then [] else Union(slots[..|slots| - 1]) + slots[|slots| - 1].1
  }

  function ListsOf(slots: Slots): (parts: seq<seq<Diagnostic>>)
    ensures |parts| == |slots| && forall i | 0 <= i < |slots| :: parts[i] == slots[i].1
  {
    seq(|slots|, i requires 0 <= i < |slots| => slots[i].1)
  }

  lemma {:induction false} UnionConcatenates(slots: Slots)
    ensures Concatenates(Union(slots), ListsOf(slots))
    decreases |slots|
  {
    if slots == [] {
      NothingConcatenates<Diagnostic>();
      assert ListsOf(slots) == [];
    } else {
      var front, last := slots[..|slots| - 1], slots[|slots| - 1];
      UnionConcatenates(front);
      ConcatenatesNext(Union(front), ListsOf(front), last.1);
      assert ListsOf(slots) == ListsOf(front) + [last.1];
    }
  }

  // ---------------------------------------------------------------------------
  // The router
  // ---------------------------------------------------------------------------

  datatype Router = Router(byUri: map<string, Slots>, publishedNonEmpty: set<string>)

  const INITIAL := Router(map[], {})

  function SlotsOf(s: Router, file: string): Slots {
    if file in s.byUri then s.byUri[file] else []
  }

  function Next(s: Router, u: Update): Router {
    var slots := Merge(SlotsOf(s, u.file), u);
    if Union(slots) != [] then Router(s.byUri[u.file := slots], s.publishedNonEmpty + {u.file})
    else Router(s.byUri - {u.file}, s.publishedNonEmpty - {u.file})
  }

  /** What is forwarded to the client. */
  function Sent(s: Router, u: Update): Option<seq<Diagnostic>> {
    var union := Union(Merge(SlotsOf(s, u.file), u));
    if union != [] || u.file in s.publishedNonEmpty then Some(union) else None
  }

  function Run(h: seq<Update>): Router
    decreases |h|
  {
    if h == [] then INITIAL else Next(Run(h[..|h| - 1]), h[|h| - 1])
  }

  /** The last list the client got for a file; empty if it got none. */
  function ClientView(h: seq<Update>, file: string): seq<Diagnostic>
    decreases |h|
  {
    if h == [] then []
    else
      var n := |h| - 1;
      var sent := Sent(Run(h[..n]), h[n]);
      if h[n].file == file && sent.Some? then sent.value else ClientView(h[..n], file)
  }

  // ---------------------------------------------------------------------------
  // What the history says about one file and one target
  // ---------------------------------------------------------------------------

  /** What has accumulated since the last reset. */
  function Accumulated(h: seq<Update>, file: string, target: string): seq<Diagnostic>
    decreases |h|
  {
    if h == [] then []
    else
      var u := h[|h| - 1];
      if u.file == file && u.target == target && u.reset then u.incoming
      else Accumulated(h[..|h| - 1], file, target) + if u.file == file && u.target == target then u.incoming else []
  }

  predicate IsFor(u: Update, file: string, target: string) {
    u.file == file && u.target == target
  }

  predicate IsReset(u: Update, file: string, target: string) {
    IsFor(u, file, target) && u.reset
  }

  /** No later update resets the pair, and `from` does, or is the very start. */
  ghost predicate IsLastReset(h: seq<Update>, file: string, target: string, from: nat) {
    && (from == 0 || (from < |h| && IsReset(h[from], file, target)))
    && (forall j | from < j < |h| :: !IsReset(h[j], file, target))
  }

  /** The updates for the pair from `from` on, in order. */
  ghost predicate ListsFrom(h: seq<Update>, file: string, target: string, from: nat, at: seq<nat>) {
    && Ascending(at)
    && (forall k | 0 <= k < |at| :: from <= at[k] < |h| && IsFor(h[at[k]], file, target))
    && (forall i | from <= i < |h| && IsFor(h[i], file, target) :: i in at)
  }

  function IncomingAt(h: seq<Update>, at: seq<nat>): (parts: seq<seq<Diagnostic>>)
    requires forall k | 0 <= k < |at| :: at[k] < |h|
    ensures |parts| == |at| && forall k | 0 <= k < |at| :: parts[k] == h[at[k]].incoming
  {
    seq(|at|, k requires 0 <= k < |at| => h[at[k]].incoming)
  }

  lemma ListsNext(h: seq<Update>, u: Update, file: string, target: string, from: nat, at: seq<nat>)
    requires ListsFrom(h, file, target, from, at) && from <= |h|
    ensures ListsFrom(h + [u], file, target, from, if IsFor(u, file, target) then at + [|h|] else at)
  {
    var next, more := h + [u], if IsFor(u, file, target) then at + [|h|] else at;
    AscendingNext(at, |h|);
    forall i | from <= i < |next| && IsFor(next[i], file, target) ensures i in more {
      if i < |h| {
        assert next[i] == h[i];
        assert i in at;
      } else {
        assert more[|at|] == i;
      }
    }
  }

  lemma IncomingNext(h: seq<Update>, u: Update, at: seq<nat>)
    requires forall k | 0 <= k < |at| :: at[k] < |h|
    ensures IncomingAt(h + [u], at) == IncomingAt(h, at)
    ensures IncomingAt(h + [u], at + [|h|]) == IncomingAt(h, at) + [u.incoming]
  {
  }

  lemma AccumulatedNext(h: seq<Update>, u: Update, file: string, target: string)
    ensures Accumulated(h + [u], file, target)
            == if !IsFor(u, file, target) then Accumulated(h, file, target)
               else if u.reset then u.incoming
               else Accumulated(h, file, target) + u.incoming
  {
    assert (h + [u])[..|h|] == h;
    assert Accumulated(h, file, target) + [] == Accumulated(h, file, target);
  }

  /** What has accumulated is what was published for the pair from its last reset on, laid end to end. */
  lemma {:induction false} AccumulatedMeans(h: seq<Update>, file: string, target: string) returns (from: nat, at: seq<nat>)
    ensures from <= |h| && IsLastReset(h, file, target, from) && ListsFrom(h, file, target, from, at)
    ensures Concatenates(Accumulated(h, file, target), IncomingAt(h, at))
    decreases |h|
  {
    from, at := 0, [];
    if h == [] {
      NothingConcatenates<Diagnostic>();
      assert IncomingAt(h, at) == [];
      return;
    }
    var before, u := h[..|h| - 1], h[|h| - 1];
    assert before + [u] == h;
    AccumulatedNext(before, u, file, target);
    if IsReset(u, file, target) {
      NothingConcatenates<Diagnostic>();
      assert IncomingAt(before, []) == [] && [] + u.incoming == u.incoming;
      ConcatenatesNext([], [], u.incoming);
      IncomingNext(before, u, []);
      from := |before|;
      ListsNext(before, u, file, target, from, []);
    } else {
      from, at := AccumulatedMeans(before, file, target);
      IncomingNext(before, u, at);
      if IsFor(u, file, target) {
        ConcatenatesNext(Accumulated(before, file, target), IncomingAt(before, at), u.incoming);
      }
      ListsNext(before, u, file, target, from, at);
      LastResetStays(before, u, file, target, from);
    }
    at := if IsFor(u, file, target) then at + [|before|] else at;
  }

  lemma LastResetStays(h: seq<Update>, u: Update, file: string, target: string, from: nat)
    requires IsLastReset(h, file, target, from) && !IsReset(u, file, target)
    ensures IsLastReset(h + [u], file, target, from)
  {
  }

  ghost function Contents(h: seq<Update>, file: string): string -> seq<Diagnostic> {
    t => Accumulated(h, file, t)
  }

  ghost predicate IsCleared(h: seq<Update>, file: string) {
    forall t :: Contents(h, file)(t) == []
  }

  /** Since when a target has had its place in the file's list: from the first update that gives it
      something to hold until it is reset to nothing or the whole file is clear. */
  ghost function PlacedAt(h: seq<Update>, file: string, target: string): (r: Option<nat>)
    ensures r.Some? ==> r.value < |h|
    decreases |h|
  {
    if h == [] then None
    else
      var n, u := |h| - 1, h[|h| - 1];
      var before := PlacedAt(h[..n], file, target);
      if u.file != file then before
      else if IsCleared(h, file) then None
      else if u.target != target then before
      else if u.reset && u.incoming == [] then None
      else if before.Some? then before
      else Some(n)
  }

  /** Update `i` gives the target something to hold, if only an empty list to add to. */
  predicate TakesPlace(h: seq<Update>, i: nat, file: string, target: string) {
    i < |h| && h[i].file == file && h[i].target == target && !(h[i].reset && h[i].incoming == [])
  }

  /** Update `i` resets the target to nothing, or leaves the whole file clear. */
  ghost predicate GivesUpPlace(h: seq<Update>, i: nat, file: string, target: string) {
    && i < |h| && h[i].file == file
    && (IsCleared(h[..i + 1], file) || (h[i].target == target && h[i].reset && h[i].incoming == []))
  }

  /** Told without recursion: the place is that of the first update that takes it since it was last given
      up, and a target without a place has given up every place it took. */
  lemma {:induction false} PlacedAtMeans(h: seq<Update>, file: string, target: string)
    ensures var r := PlacedAt(h, file, target);
            && (r.Some? ==>
                  && TakesPlace(h, r.value, file, target)
                  && (forall j: nat | r.value <= j :: !GivesUpPlace(h, j, file, target))
                  && (forall i: nat | i < r.value && TakesPlace(h, i, file, target) ::
                        exists j: nat | i <= j < r.value :: GivesUpPlace(h, j, file, target)))
            && (r.None? ==>
                  forall i: nat | TakesPlace(h, i, file, target) :: exists j: nat | i <= j :: GivesUpPlace(h, j, file, target))
    decreases |h|
  {
    if h != [] {
      var n := |h| - 1;
      var before := h[..n];
      PlacedAtMeans(before, file, target);
      assert h[..n + 1] == h;
      forall i: nat | i < n ensures TakesPlace(h, i, file, target) <==> TakesPlace(before, i, file, target) {
        assert before[i] == h[i];
      }
      forall i: nat | i < n ensures GivesUpPlace(h, i, file, target) <==> GivesUpPlace(before, i, file, target) {
        assert before[i] == h[i] && before[..i + 1] == h[..i + 1];
      }
      LastPlacing(h, file, target);
    }
  }

  /** The last update takes, gives up or keeps the place. */
  lemma LastPlacing(h: seq<Update>, file: string, target: string)
    requires h != []
    ensures var n := |h| - 1;
            PlacedAt(h, file, target)
            == if GivesUpPlace(h, n, file, target) then None
               else if PlacedAt(h[..n], file, target).Some? then PlacedAt(h[..n], file, target)
               else if TakesPlace(h, n, file, target) then Some(n)
               else None
  {
    assert h[..|h|] == h;
  }

  ghost function Places(h: seq<Update>, file: string): string -> Option<nat> {
    t => PlacedAt(h, file, t)
  }

  /** Slots in the order of their places, each with its contents; nothing elsewhere. */
  ghost predicate Reflects(at: string -> Option<nat>, contents: string -> seq<Diagnostic>, slots: Slots) {
    && OrderedBy(at, TargetsOf(slots))
    && (forall i | 0 <= i < |slots| :: slots[i].1 == contents(slots[i].0))
    && (forall t :: !Has(TargetsOf(slots), t) ==> contents(t) == [])
  }

  lemma {:induction false} UnionIsEmpty(slots: Slots)
    ensures Union(slots) == [] <==> forall i | 0 <= i < |slots| :: slots[i].1 == []
    decreases |slots|
  {
    if slots != [] {
      UnionIsEmpty(slots[..|slots| - 1]);
    }
  }

  lemma EmptyMeansCleared(at: string -> Option<nat>, contents: string -> seq<Diagnostic>, slots: Slots)
    requires Reflects(at, contents, slots)
    ensures Union(slots) == [] <==> forall t :: contents(t) == []
  {
    UnionIsEmpty(slots);
    if Union(slots) == [] {
      forall t ensures contents(t) == [] {
        if Has(TargetsOf(slots), t) {
          var i :| 0 <= i < |slots| && TargetsOf(slots)[i] == t;
        }
      }
    }
  }

  /** A merge, in terms of places and contents. */
  ghost predicate Merges(at: string -> Option<nat>, contents: string -> seq<Diagnostic>,
                         at': string -> Option<nat>, contents': string -> seq<Diagnostic>, u: Update, n: nat) {
    && (forall t :: at(t).Some? ==> at(t).value < n)
    && (forall t :: contents'(t) == if t != u.target then contents(t) else if u.reset then u.incoming else contents(t) + u.incoming)
    && (forall t :: at'(t) == if t != u.target then at(t)
                              else if u.reset && u.incoming == [] then None
                              else if at(t).Some? then at(t)
                              else Some(n))
  }

  lemma MergeInPlace(at: string -> Option<nat>, contents: string -> seq<Diagnostic>,
                     at': string -> Option<nat>, contents': string -> seq<Diagnostic>, slots: Slots, u: Update, n: nat, i: nat)
    requires Reflects(at, contents, slots) && Merges(at, contents, at', contents', u, n)
    requires i < |slots| && slots[i].0 == u.target && !(u.reset && u.incoming == [])
    ensures Reflects(at', contents', slots[i := (u.target, contents'(u.target))])
  {
    var keys, next := TargetsOf(slots), slots[i := (u.target, contents'(u.target))];
    assert TargetsOf(next) == keys;
    SameOrder(at, at', keys);
    OrderedIsDistinct(at, keys);
    assert keys[i] == u.target;
    forall j | 0 <= j < |next| ensures next[j].1 == contents'(next[j].0) {
      assert j != i ==> keys[j] != keys[i];
    }
  }

  lemma MergeRemoves(at: string -> Option<nat>, contents: string -> seq<Diagnostic>,
                     at': string -> Option<nat>, contents': string -> seq<Diagnostic>, slots: Slots, u: Update, n: nat, i: nat)
    requires Reflects(at, contents, slots) && Merges(at, contents, at', contents', u, n)
    requires i < |slots| && slots[i].0 == u.target && u.reset && u.incoming == []
    ensures Reflects(at', contents', slots[..i] + slots[i + 1..])
  {
    var keys, next := TargetsOf(slots), slots[..i] + slots[i + 1..];
    assert TargetsOf(next) == keys[..i] + keys[i + 1..];
    RemoveAtKeepsOrder(at, at', keys, i);
    OrderedIsDistinct(at, keys);
    forall j | 0 <= j < |next| ensures next[j].1 == contents'(next[j].0) {
      var k := if j < i then j else j + 1;
      assert next[j] == slots[k] && keys[k] != keys[i];
    }
    forall t | t != u.target && Has(keys, t) ensures Has(TargetsOf(next), t) {
      HasWithout(keys, i, t);
    }
  }

  lemma MergeAppends(at: string -> Option<nat>, contents: string -> seq<Diagnostic>,
                     at': string -> Option<nat>, contents': string -> seq<Diagnostic>, slots: Slots, u: Update, n: nat)
    requires Reflects(at, contents, slots) && Merges(at, contents, at', contents', u, n)
    requires !Has(TargetsOf(slots), u.target) && !(u.reset && u.incoming == [])
    ensures Reflects(at', contents', slots + [(u.target, u.incoming)])
  {
    var keys, next := TargetsOf(slots), slots + [(u.target, u.incoming)];
    assert TargetsOf(next) == keys + [u.target];
    assert at(u.target).None?;
    AppendKeepsOrder(at, at', keys, u.target, n);
    assert contents(u.target) == [];
    forall j | 0 <= j < |next| ensures next[j].1 == contents'(next[j].0) {
      if j < |keys| {
        assert keys[j] != u.target;
      }
    }
    forall t | t == u.target || Has(keys, t) ensures Has(TargetsOf(next), t) {
      HasWith(keys, u.target, t);
    }
  }

  lemma SameReflects(at: string -> Option<nat>, contents: string -> seq<Diagnostic>,
                     at': string -> Option<nat>, contents': string -> seq<Diagnostic>, slots: Slots)
    requires Reflects(at, contents, slots) && (forall t :: at'(t) == at(t)) && (forall t :: contents'(t) == contents(t))
    ensures Reflects(at', contents', slots)
  {
    SameOrder(at, at', TargetsOf(slots));
  }

  lemma MergeIgnores(at: string -> Option<nat>, contents: string -> seq<Diagnostic>,
                     at': string -> Option<nat>, contents': string -> seq<Diagnostic>, slots: Slots, u: Update, n: nat)
    requires Reflects(at, contents, slots) && Merges(at, contents, at', contents', u, n)
    requires !Has(TargetsOf(slots), u.target) && u.reset && u.incoming == []
    ensures Reflects(at', contents', slots)
  {
    assert at(u.target).None? && contents(u.target) == [];
    SameReflects(at, contents, at', contents', slots);
  }

  lemma MergeReflects(at: string -> Option<nat>, contents: string -> seq<Diagnostic>,
                      at': string -> Option<nat>, contents': string -> seq<Diagnostic>, slots: Slots, u: Update, n: nat)
    requires Reflects(at, contents, slots) && Merges(at, contents, at', contents', u, n)
    ensures Reflects(at', contents', Merge(slots, u))
  {
    var clears := u.reset && u.incoming == [];
    match Find(TargetsOf(slots), u.target)
    case Some(i) =>
      assert slots[i] == (u.target, contents(u.target));
      if clears {
        MergeRemoves(at, contents, at', contents', slots, u, n, i);
      } else {
        MergeInPlace(at, contents, at', contents', slots, u, n, i);
        assert Merge(slots, u) == slots[i := (u.target, contents'(u.target))];
      }
    case None =>
      if clears {
        MergeIgnores(at, contents, at', contents', slots, u, n);
        assert Merge(slots, u) == slots;
      } else {
        MergeAppends(at, contents, at', contents', slots, u, n);
        assert Merge(slots, u) == slots + [(u.target, u.incoming)];
      }
  }

  // ---------------------------------------------------------------------------
  // Every run
  // ---------------------------------------------------------------------------

  /** The router's slots are what the history says, and the client has seen their union. */
  ghost predicate Faithful(h: seq<Update>, s: Router, seen: seq<Diagnostic>, file: string) {
    && Reflects(Places(h, file), Contents(h, file), SlotsOf(s, file))
    && seen == Union(SlotsOf(s, file))
    && (file in s.publishedNonEmpty <==> seen != [])
  }

  lemma HistoryNext(h: seq<Update>, u: Update, file: string, t: string)
    ensures Accumulated(h + [u], file, t)
            == if IsReset(u, file, t) then u.incoming
               else if u.file == file && u.target == t then Accumulated(h, file, t) + u.incoming
               else Accumulated(h, file, t)
    ensures u.file != file ==> PlacedAt(h + [u], file, t) == PlacedAt(h, file, t)
    ensures u.file == file ==>
              PlacedAt(h + [u], file, t) == if IsCleared(h + [u], file) then None else PlaceOf(PlacedAt(h, file, t), u, t, |h|)
  {
    assert (h + [u])[..|h|] == h;
    assert Accumulated(h, file, t) + [] == Accumulated(h, file, t);
  }

  /** The place after a merge that leaves something in the file. */
  function PlaceOf(before: Option<nat>, u: Update, t: string, n: nat): Option<nat> {
    if u.target != t then before
    else if u.reset && u.incoming == [] then None
    else if before.Some? then before
    else Some(n)
  }

  lemma OtherFile(h: seq<Update>, s: Router, u: Update, seen: seq<Diagnostic>, file: string)
    requires Faithful(h, s, seen, file) && u.file != file
    ensures Faithful(h + [u], Next(s, u), seen, file)
  {
    var at, contents := Places(h, file), Contents(h, file);
    var at', contents' := Places(h + [u], file), Contents(h + [u], file);
    forall t ensures at'(t) == at(t) && contents'(t) == contents(t) {
      HistoryNext(h, u, file, t);
    }
    SameReflects(at, contents, at', contents', SlotsOf(s, file));
  }

  lemma SameFile(h: seq<Update>, s: Router, u: Update, seen: seq<Diagnostic>)
    requires Faithful(h, s, seen, u.file)
    ensures Faithful(h + [u], Next(s, u), Union(Merge(SlotsOf(s, u.file), u)), u.file)
  {
    var file, n := u.file, |h|;
    var at, contents := Places(h, file), Contents(h, file);
    var at', contents' := Places(h + [u], file), Contents(h + [u], file);
    var merged := (t: string) => PlaceOf(at(t), u, t, n);
    forall t ensures contents'(t) == if t != u.target then contents(t) else if u.reset then u.incoming else contents(t) + u.incoming {
      HistoryNext(h, u, file, t);
    }
    forall t ensures at'(t) == if IsCleared(h + [u], file) then None else merged(t) {
      HistoryNext(h, u, file, t);
    }
    var slots := Merge(SlotsOf(s, file), u);
    MergeReflects(at, contents, merged, contents', SlotsOf(s, file), u, n);
    EmptyMeansCleared(merged, contents', slots);
    AfterMerge(h + [u], merged, slots, file);
  }

  /** Once the slots hold nothing they are all dropped. */
  lemma AfterMerge(h: seq<Update>, merged: string -> Option<nat>, slots: Slots, file: string)
    requires Reflects(merged, Contents(h, file), slots)
    requires Union(slots) == [] <==> IsCleared(h, file)
    requires forall t :: Places(h, file)(t) == if IsCleared(h, file) then None else merged(t)
    ensures Reflects(Places(h, file), Contents(h, file), if Union(slots) == [] then [] else slots)
  {
    if Union(slots) != [] {
      SameReflects(merged, Contents(h, file), Places(h, file), Contents(h, file), slots);
    }
  }

  lemma RunNext(h: seq<Update>, u: Update, file: string)
    ensures Run(h + [u]) == Next(Run(h), u)
    ensures ClientView(h + [u], file)
            == if u.file == file && Sent(Run(h), u).Some? then Sent(Run(h), u).value else ClientView(h, file)
  {
    assert (h + [u])[..|h|] == h;
  }

  lemma StepFaithful(h: seq<Update>, u: Update, h': seq<Update>, s: Router, s': Router,
                     seen: seq<Diagnostic>, seen': seq<Diagnostic>, file: string)
    requires Faithful(h, s, seen, file) && h' == h + [u] && s' == Next(s, u)
    requires seen' == if u.file == file && Sent(s, u).Some? then Sent(s, u).value else seen
    ensures Faithful(h', s', seen', file)
  {
    if u.file == file {
      SameFile(h, s, u, seen);
    } else {
      OtherFile(h, s, u, seen, file);
    }
  }

  lemma NothingYet(file: string)
    ensures Faithful([], INITIAL, [], file)
  {
  }

  function ContentsOf(contents: string -> seq<Diagnostic>, targets: seq<string>): (parts: seq<seq<Diagnostic>>)
    ensures |parts| == |targets| && forall i | 0 <= i < |targets| :: parts[i] == contents(targets[i])
  {
    seq(|targets|, i requires 0 <= i < |targets| => contents(targets[i]))
  }

  /** The list is, for the targets that have a place and in the order of their places, what has accumulated
      for each, laid end to end; no other target has anything. */
  ghost predicate Shows(h: seq<Update>, file: string, list: seq<Diagnostic>) {
    exists targets ::
      && OrderedBy(Places(h, file), targets)
      && (forall t :: !Has(targets, t) ==> Accumulated(h, file, t) == [])
      && Concatenates(list, ContentsOf(Contents(h, file), targets))
  }

  lemma FaithfulShows(h: seq<Update>, s: Router, seen: seq<Diagnostic>, file: string)
    requires Faithful(h, s, seen, file)
    ensures Shows(h, file, seen)
  {
    var slots := SlotsOf(s, file);
    var targets := TargetsOf(slots);
    UnionConcatenates(slots);
    assert ContentsOf(Contents(h, file), targets) == ListsOf(slots);
    forall t | !Has(targets, t) ensures Accumulated(h, file, t) == [] {
      assert Contents(h, file)(t) == [];
    }
  }

  /** After every sequence of publishes, for every file: the client's last list shows what accumulated for
      each target since its last reset. */
  lemma {:induction false} ClientViewIsExact(h: seq<Update>, file: string)
    ensures Faithful(h, Run(h), ClientView(h, file), file)
    ensures Shows(h, file, ClientView(h, file))
    decreases |h|
  {
    if h == [] {
      NothingYet(file);
    } else {
      var before, u := h[..|h| - 1], h[|h| - 1];
      assert h == before + [u];
      RunNext(before, u, file);
      ClientViewIsExact(before, file);
      StepFaithful(before, u, h, Run(before), Run(h), ClientView(before, file), ClientView(h, file), file);
    }
    FaithfulShows(h, Run(h), ClientView(h, file), file);
  }

  /** What one publish leaves the client with. */
  lemma AcceptShows(h: seq<Update>, u: Update)
    ensures var sent := Sent(Run(h), u);
            && Shows(h + [u], u.file, if sent.Some? then sent.value else ClientView(h, u.file))
            && (sent.None? ==> ClientView(h, u.file) == [])
  {
    RunNext(h, u, u.file);
    ClientViewIsExact(h + [u], u.file);
    EmptyPublishClears(h, u);
  }

  lemma ClearedIsEmpty(h: seq<Update>, s: Router, seen: seq<Diagnostic>, file: string)
    requires Faithful(h, s, seen, file)
    ensures seen == [] <==> IsCleared(h, file)
  {
    EmptyMeansCleared(Places(h, file), Contents(h, file), SlotsOf(s, file));
  }

  /** An empty list is sent exactly when the file becomes clear and its previous list was not empty. */
  lemma EmptyPublishClears(h: seq<Update>, u: Update)
    ensures Sent(Run(h), u) == Some([]) <==> IsCleared(h + [u], u.file) && ClientView(h, u.file) != []
    ensures Sent(Run(h), u) == None <==> IsCleared(h + [u], u.file) && ClientView(h, u.file) == []
  {
    var s, file := Run(h), u.file;
    ClientViewIsExact(h, file);
    SameFile(h, s, u, ClientView(h, file));
    ClearedIsEmpty(h + [u], Next(s, u), Union(Merge(SlotsOf(s, file), u)), file);
  }

  // ---------------------------------------------------------------------------
  // The router object
  // ---------------------------------------------------------------------------

  method Flatten(slots: Slots) returns (union: seq<Diagnostic>)
    ensures union == Union(slots)
  {
    union := [];
    for i := 0 to |slots|
      invariant union == Union(slots[..i])
    {
      assert slots[..i + 1][..i] == slots[..i];
      union := union + slots[i].1;
    }
    assert slots[..|slots|] == slots;
  }

  method MergeInto(before: Slots, target: string, incoming: seq<Diagnostic>, reset: bool, ghost u: Update) returns (slots: Slots)
    requires u == Update(u.file, target, incoming, reset)
    ensures slots == Merge(before, u)
  {
    slots := before;
    var pos := FindKey(TargetsOf(slots), target);
    if reset {
      if pos.Some? && incoming == [] {
        slots := slots[..pos.value] + slots[pos.value + 1..];
      } else if pos.Some? {
        slots := slots[pos.value := (slots[pos.value].0, incoming)];
      } else if incoming != [] {
        slots := slots + [(target, incoming)];
      }
    } else if pos.Some? {
      slots := slots[pos.value := (slots[pos.value].0, slots[pos.value].1 + incoming)];
    } else {
      slots := slots + [(target, incoming)];
    }
  }

  class DiagnosticRouter {
    var byUri: map<string, Slots>
    var publishedNonEmpty: set<string>
    const toFileUri: string -> string

    ghost function View(): Router
      reads this
    {
      Router(byUri, publishedNonEmpty)
    }

    constructor (toFileUri: string -> string)
      ensures View() == Run([]) && this.toFileUri == toFileUri
    {
      byUri, publishedNonEmpty := map[], {};
      this.toFileUri := toFileUri;
    }

    method Accept(p: Publish) returns (r: Option<(string, seq<Diagnostic>)>)
      modifies this
      ensures var u := UpdateOf(toFileUri, p);
              && View() == Next(old(View()), u)
              && (r.Some? <==> Sent(old(View()), u).Some?)
              && (r.Some? ==> r.value == (u.file, Sent(old(View()), u).value))
      ensures forall h | old(View()) == Run(h) :: View() == Run(h + [UpdateOf(toFileUri, p)])
      ensures r.Some? ==> r.value.0 == toFileUri(p.uri)
      ensures forall h | old(View()) == Run(h) ::
                && Shows(h + [UpdateOf(toFileUri, p)], toFileUri(p.uri), if r.Some? then r.value.1 else ClientView(h, toFileUri(p.uri)))
                && (r.None? ==> ClientView(h, toFileUri(p.uri)) == [])
    {
      ghost var u := UpdateOf(toFileUri, p);
      forall h ensures Run(h + [u]) == Next(Run(h), u) {
        RunNext(h, u, u.file);
      }
      ghost var was := View();
      forall h | was == Run(h)
        ensures var sent := Sent(was, u);
                && Shows(h + [u], u.file, if sent.Some? then sent.value else ClientView(h, u.file))
                && (sent.None? ==> ClientView(h, u.file) == [])
      {
        AcceptShows(h, u);
      }
      var file := toFileUri(p.uri);
      var target := if p.target.Some? then p.target.value else "";
      var slots := MergeInto(if file in byUri then byUri[file] else [], target, ToLspAll(p.diagnostics), p.reset, u);
      var union := Flatten(slots);
      if union != [] {
        byUri := byUri[file := slots];
        publishedNonEmpty := publishedNonEmpty + {file};
        r := Some((file, union));
      } else {
        byUri := byUri - {file};
        if file in publishedNonEmpty {
          publishedNonEmpty := publishedNonEmpty - {file};
          r := Some((file, []));
        } else {
          r := None;
        }
      }
    }
  }
}
