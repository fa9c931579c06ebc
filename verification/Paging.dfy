/** Paging through the probe tree (src/commands.rs): cursors bound to the view they were minted against. */
module Paging {
  import opened Common
  import opened Text
  import opened Probe
  import opened Expansion

  const USIZE_MAX: nat := 0xFFFF_FFFF_FFFF_FFFF
  const DIGEST_LENGTH: nat := 71
  const GENERATION_LENGTH: nat := 16

  datatype CursorError = Malformed | ViewChanged

  /** The view a cursor is bound to: the probe's digest and the signal set's generation. */
  function ViewGeneration(digest: string, generation: string): string {
    digest + "." + generation
  }

  /** A `sha256:` digest in hexadecimal. */
  predicate IsDigest(s: string) {
    |s| == DIGEST_LENGTH && '#' !in s
  }

  /** A signal generation: sixteen hexadecimal digits. */
  predicate IsGeneration(s: string) {
    |s| == GENERATION_LENGTH && '#' !in s
  }

  function Mint(view: string, next: nat): string {
    view + "#" + Decimal(next)
  }

  /** Where a character first stands. */
  function FirstAt(s: string, c: char): (at: Option<nat>)
    ensures at.Some? ==> at.value < |s| && s[at.value] == c && c !in s[..at.value]
    ensures at.None? ==> c !in s
  {
    if s == "" then None
    else if s[0] == c then Some(0)
    else
      var rest := FirstAt(s[1..], c);
      if rest.None? then None
      else
        assert s[..rest.value + 1] == [s[0]] + s[1..][..rest.value];
        Some(rest.value + 1)
  }

  predicate AllDigits(s: string) {
    s != "" && forall i :: 0 <= i < |s| ==> IsDigit(s[i])
  }

  /** An unsigned 64-bit number: digits, after at most one plus sign. */
  function ParseUsize(s: string): Option<nat> {
    var digits := if s != "" && s[0] == '+' then s[1..] else s;
    if AllDigits(digits) && Value(digits) <= USIZE_MAX then Some(Value(digits)) else None
  }

  function ParseCursor(cursor: string, view: string): Result<nat, CursorError> {
    var at := FirstAt(cursor, '#');
    if at.None? then Err(Malformed)
    else if cursor[..at.value] != view then Err(ViewChanged)
    else
      var index := ParseUsize(cursor[at.value + 1..]);
      if index.None? then Err(Malformed) else Ok(index.value)
  }

  // ---------------------------------------------------------------------------------------------
  // What a cursor is good for
  // ---------------------------------------------------------------------------------------------

  lemma {:induction false} FirstIsUnique(s: string, c: char, k: nat)
    requires k < |s| && s[k] == c && c !in s[..k]
    ensures FirstAt(s, c) == Some(k)
  {
    if k > 0 {
      assert s[..k] == [s[0]] + s[1..][..k - 1];
      FirstIsUnique(s[1..], c, k - 1);
    }
  }

  lemma OnlyOneFirst(cursor: string, k: nat)
    requires k < |cursor| && cursor[k] == '#' && '#' !in cursor[..k]
    ensures FirstAt(cursor, '#') == Some(k) && cursor == cursor[..k] + "#" + cursor[k + 1..]
  {
    FirstIsUnique(cursor, '#', k);
  }

  lemma SplitsAtTheFirst(view: string, rest: string)
    requires '#' !in view
    ensures FirstAt(view + "#" + rest, '#') == Some(|view|)
  {
    var s := view + "#" + rest;
    assert s[..|view|] == view && s[|view|] == '#';
    FirstIsUnique(s, '#', |view|);
  }

  /** A cursor is accepted exactly when it is the view, the separator and a number. */
  lemma AcceptedExactlyWhen(cursor: string, view: string, n: nat)
    requires '#' !in view
    ensures ParseCursor(cursor, view) == Ok(n) <==>
      exists index: string :: cursor == view + "#" + index && ParseUsize(index) == Some(n)
  {
    if ParseCursor(cursor, view) == Ok(n) {
      var at := FirstAt(cursor, '#').value;
      OnlyOneFirst(cursor, at);
      assert cursor == view + "#" + cursor[at + 1..] && ParseUsize(cursor[at + 1..]) == Some(n);
    }
    if index: string :| cursor == view + "#" + index && ParseUsize(index) == Some(n) {
      SplitsAtTheFirst(view, index);
      assert cursor[..|view|] == view && cursor[|view| + 1..] == index;
    }
  }

  lemma {:induction false} IndexIsRead(n: nat)
    requires n <= USIZE_MAX
    ensures ParseUsize(Decimal(n)) == Some(n)
  {
    DecimalIsRead(n);
    assert IsDigit(Decimal(n)[0]);
  }

  lemma MintedIsRead(view: string, next: nat)
    requires '#' !in view && next <= USIZE_MAX
    ensures ParseCursor(Mint(view, next), view) == Ok(next)
  {
    IndexIsRead(next);
    AcceptedExactlyWhen(Mint(view, next), view, next);
  }

  lemma ViewsDiffer(d1: string, g1: string, d2: string, g2: string)
    requires IsDigest(d1) && IsDigest(d2)
    ensures ViewGeneration(d1, g1) == ViewGeneration(d2, g2) <==> d1 == d2 && g1 == g2
  {
    var v1, v2 := ViewGeneration(d1, g1), ViewGeneration(d2, g2);
    assert v1[..DIGEST_LENGTH] == d1 && v2[..DIGEST_LENGTH] == d2;
    assert v1[DIGEST_LENGTH + 1..] == g1 && v2[DIGEST_LENGTH + 1..] == g2;
  }

  /** A minted cursor reads back as its index under the view it was minted for, and is refused as changed
      under any other pair of probe digest and signal generation. */
  lemma CursorRoundTrip(d1: string, g1: string, d2: string, g2: string, next: nat)
    requires IsDigest(d1) && IsGeneration(g1) && IsDigest(d2) && IsGeneration(g2) && next <= USIZE_MAX
    ensures ParseCursor(Mint(ViewGeneration(d1, g1), next), ViewGeneration(d2, g2))
            == if d1 == d2 && g1 == g2 then Ok(next) else Err(ViewChanged)
  {
    var view, index := ViewGeneration(d1, g1), Decimal(next);
    SplitsAtTheFirst(view, index);
    IndexIsRead(next);
    ViewsDiffer(d1, g1, d2, g2);
    assert Mint(view, next)[..|view|] == view && Mint(view, next)[|view| + 1..] == index;
  }

  // ---------------------------------------------------------------------------------------------
  // Pages
  // ---------------------------------------------------------------------------------------------

  datatype Entry = Entry(node: Node, configured: bool)

  datatype Page = Page(entries: seq<Entry>, cursor: Option<string>)

  /** Every node with its flag, in tree order. */
  function Listing(tree: Tree, flags: seq<bool>): seq<Entry>
    requires |flags| == |tree|
  {
    seq(|tree|, i requires 0 <= i < |tree| => Entry(tree[i], flags[i]))
  }

  function Least(a: nat, b: nat): nat {
    if a < b then a else b
  }

  /** One page: from the cursor on, as many entries as asked for, and a cursor when there is more. */
  function BrowsePaged(tree: Tree, flags: seq<bool>, view: string, cursor: Option<string>, max: Option<nat>)
    : (page: Result<Page, CursorError>)
    requires |flags| == |tree|
  {
    var start := if cursor.None? then Ok(0) else ParseCursor(cursor.value, view);
    if start.Err? then Err(start.error) else Ok(PageFrom(tree, flags, view, start.value, max))
  }

  function PageFrom(tree: Tree, flags: seq<bool>, view: string, start: nat, max: Option<nat>): Page
    requires |flags| == |tree|
  {
    var from := Least(start, |tree|);
    var entries := Listing(tree, flags)[from..Least(from + Clamp(OrElse(max, 200), 1, 1000), |tree|)];
    var next := start + |entries|;
    Page(entries, if next < |tree| then Some(Mint(view, next)) else None)
  }

  lemma PageAt(tree: Tree, flags: seq<bool>, view: string, from: nat, to: nat, max: Option<nat>)
    requires |flags| == |tree| && from < |tree| && to == Least(from + Clamp(OrElse(max, 200), 1, 1000), |tree|)
    ensures from < to <= |tree|
    ensures PageFrom(tree, flags, view, from, max)
            == Page(Listing(tree, flags)[from..to], if to < |tree| then Some(Mint(view, to)) else None)
  {
    assert Least(from, |tree|) == from && |Listing(tree, flags)[from..to]| == to - from;
  }

  /** A request without a cursor is answered from the first node on, one with an accepted cursor from where it says, and
      any other is refused for what is wrong with the cursor. */
  lemma AnswersSay(tree: Tree, flags: seq<bool>, view: string, cursor: string, max: Option<nat>)
    requires |flags| == |tree|
    ensures BrowsePaged(tree, flags, view, None, max) == Ok(PageFrom(tree, flags, view, 0, max))
    ensures BrowsePaged(tree, flags, view, Some(cursor), max)
            == match ParseCursor(cursor, view)
               case Ok(start) => Ok(PageFrom(tree, flags, view, start, max))
               case Err(e) => Err(e)
  {
  }

  /** A page has as many entries as asked for, brought into 1 to 1000, and 200 without being asked, as far as the
      tree goes from where it starts; each entry is a node with its own flag; and a cursor to the node after the
      last comes with it exactly when there is one. */
  lemma PageSays(tree: Tree, flags: seq<bool>, view: string, start: nat, max: Option<nat>)
    requires |flags| == |tree|
    ensures var page, left := PageFrom(tree, flags, view, start, max), |tree| - start;
            var size := if max.None? then 200 else if max.value < 1 then 1 else if max.value > 1000 then 1000
                        else max.value;
            && |page.entries| == (if left < 0 then 0 else if left < size then left else size)
            && (forall k :: 0 <= k < |page.entries| ==> page.entries[k] == Entry(tree[start + k], flags[start + k]))
            && page.cursor == if left > size then Some(view + "#" + Decimal(start + size)) else None
  {
    var size := Clamp(OrElse(max, 200), 1, 1000);
    if start >= |tree| {
      PageBeyond(tree, flags, view, start, max);
    } else if start + size < |tree| {
      PageAt(tree, flags, view, start, start + size, max);
      StretchOfListing(tree, flags, start, start + size);
    } else {
      PageAt(tree, flags, view, start, |tree|, max);
      StretchOfListing(tree, flags, start, |tree|);
    }
  }

  lemma PageBeyond(tree: Tree, flags: seq<bool>, view: string, start: nat, max: Option<nat>)
    requires |flags| == |tree| <= start
    ensures PageFrom(tree, flags, view, start, max) == Page([], None)
  {
  }

  lemma StretchOfListing(tree: Tree, flags: seq<bool>, from: nat, to: nat)
    requires |flags| == |tree| && from <= to <= |tree|
    ensures var stretch := Listing(tree, flags)[from..to];
            |stretch| == to - from
            && forall k :: 0 <= k < |stretch| ==> stretch[k] == Entry(tree[from + k], flags[from + k])
  {
  }

  /** A cursor is of another view when what comes before its first separator is. */
  lemma ChangedExactlyWhen(cursor: string, view: string)
    ensures ParseCursor(cursor, view) == Err(ViewChanged) <==>
              exists k :: 0 <= k < |cursor| && cursor[k] == '#' && '#' !in cursor[..k] && cursor[..k] != view
  {
    if k :| 0 <= k < |cursor| && cursor[k] == '#' && '#' !in cursor[..k] && cursor[..k] != view {
      OnlyOneFirst(cursor, k);
    }
  }

  /** The number after the separator: digits, at least one, after at most one plus sign, not above 2^64 - 1. */
  lemma NumberExactlyWhen(digits: string)
    requires AllDigits(digits)
    ensures var number := if Value(digits) <= 0xFFFF_FFFF_FFFF_FFFF then Some(Value(digits)) else None;
            ParseUsize(digits) == number && ParseUsize("+" + digits) == number
  {
    assert IsDigit(digits[0]);
    assert ("+" + digits)[1..] == digits;
  }

  lemma NothingElseIsANumber(s: string)
    requires !AllDigits(s) && (s == "" || s[0] != '+' || !AllDigits(s[1..]))
    ensures ParseUsize(s) == None
  {
  }

  /** What a client has after following cursors from the start with these page sizes, and the cursor it holds
      then; the walk ends early when there is no cursor to follow. */
  datatype Walked = Walked(entries: seq<Entry>, cursor: Option<string>, pages: nat)

  function Follow(tree: Tree, flags: seq<bool>, view: string, sizes: seq<Option<nat>>): Result<Walked, CursorError>
    requires |flags| == |tree| && sizes != []
  {
    var n := |sizes| - 1;
    if n == 0 then
      var page := BrowsePaged(tree, flags, view, None, sizes[0]);
      if page.Err? then Err(page.error) else Ok(Walked(page.value.entries, page.value.cursor, 1))
    else
      FollowOnce(tree, flags, view, Follow(tree, flags, view, sizes[..n]), sizes[n])
  }

  function FollowOnce(tree: Tree, flags: seq<bool>, view: string, before: Result<Walked, CursorError>,
                      max: Option<nat>): Result<Walked, CursorError>
    requires |flags| == |tree|
  {
    if before.Err? || before.value.cursor.None? then before
    else
      var page := BrowsePaged(tree, flags, view, before.value.cursor, max);
      if page.Err? then Err(page.error)
      else Ok(Walked(before.value.entries + page.value.entries, page.value.cursor, before.value.pages + 1))
  }

  /** A page a minted cursor asks for is the next stretch of the listing, never empty. */
  lemma NextPage(tree: Tree, flags: seq<bool>, view: string, from: nat, max: Option<nat>)
    requires |flags| == |tree| <= USIZE_MAX && '#' !in view && from < |tree|
    ensures BrowsePaged(tree, flags, view, Some(Mint(view, from)), max) == Ok(PageFrom(tree, flags, view, from, max))
  {
    MintedIsRead(view, from);
  }

  /** The page a held cursor asks for continues what is held. */
  lemma OnePageMore(tree: Tree, flags: seq<bool>, view: string, from: nat, max: Option<nat>)
    requires |flags| == |tree| && from < |tree|
    ensures var page := PageFrom(tree, flags, view, from, max);
            var got := from + |page.entries|;
            && from < got <= |tree|
            && Listing(tree, flags)[..from] + page.entries == Listing(tree, flags)[..got]
            && page.cursor == (if got < |tree| then Some(Mint(view, got)) else None)
  {
    var to := Least(from + Clamp(OrElse(max, 200), 1, 1000), |tree|);
    PageAt(tree, flags, view, from, to, max);
    SlicesJoin(Listing(tree, flags), from, to);
  }

  lemma SlicesJoin<T>(s: seq<T>, from: nat, to: nat)
    requires from <= to <= |s|
    ensures |s[from..to]| == to - from && s[..from] + s[from..to] == s[..to]
  {
  }

  /** Following cursors is never refused, yields the listing from its start without gap or repetition, and
      holds a cursor exactly while something is missing; each page adds at least one entry. */
  lemma {:induction false} PagesFollowOn(tree: Tree, flags: seq<bool>, view: string, sizes: seq<Option<nat>>)
    requires |flags| == |tree| <= USIZE_MAX && '#' !in view && sizes != []
    ensures var walked := Follow(tree, flags, view, sizes);
            && walked.Ok?
            && var got := |walked.value.entries|;
               && got <= |tree|
               && walked.value.entries == Listing(tree, flags)[..got]
               && walked.value.cursor == (if got < |tree| then Some(Mint(view, got)) else None)
               && (got < |tree| ==> got >= |sizes| == walked.value.pages)
               && 1 <= walked.value.pages <= |sizes|
  {
    var n := |sizes| - 1;
    if n > 0 {
      PagesFollowOn(tree, flags, view, sizes[..n]);
      var before := Follow(tree, flags, view, sizes[..n]).value;
      if before.cursor.Some? {
        OnePageFollowed(tree, flags, view, before, |before.entries|, sizes[n]);
        OnePageMore(tree, flags, view, |before.entries|, sizes[n]);
      }
    } else {
      FirstPage(tree, flags, view, sizes[0]);
    }
  }

  lemma FirstPage(tree: Tree, flags: seq<bool>, view: string, max: Option<nat>)
    requires |flags| == |tree|
    ensures var page := PageFrom(tree, flags, view, 0, max);
            var got := |page.entries|;
            && got <= |tree| && page.entries == Listing(tree, flags)[..got] && (tree != [] ==> got > 0)
            && page.cursor == (if got < |tree| then Some(Mint(view, got)) else None)
  {
    if tree == [] {
      PageBeyond(tree, flags, view, 0, max);
    } else {
      OnePageMore(tree, flags, view, 0, max);
      assert Listing(tree, flags)[..0] == [];
    }
  }

  lemma OnePageFollowed(tree: Tree, flags: seq<bool>, view: string, before: Walked, from: nat, max: Option<nat>)
    requires |flags| == |tree| <= USIZE_MAX && '#' !in view && from < |tree|
    requires before.cursor == Some(Mint(view, from))
    ensures var page := PageFrom(tree, flags, view, from, max);
            FollowOnce(tree, flags, view, Ok(before), max)
            == Ok(Walked(before.entries + page.entries, page.cursor, before.pages + 1))
  {
    NextPage(tree, flags, view, from, max);
  }

  /** Paging yields the whole tree once, in order, and ends: whatever the page sizes, as many pages as there
      are nodes are always enough. */
  lemma PagingYieldsTheWholeTree(tree: Tree, flags: seq<bool>, view: string, sizes: seq<Option<nat>>)
    requires |flags| == |tree| <= USIZE_MAX && '#' !in view && sizes != []
    ensures var walked := Follow(tree, flags, view, sizes);
            && walked.Ok?
            && (walked.value.cursor.None? <==> |walked.value.entries| == |tree|)
            && (forall k :: 0 <= k < |walked.value.entries| ==>
                  k < |tree| && walked.value.entries[k] == Entry(tree[k], flags[k]))
            && (|sizes| >= |tree| ==> walked.value.cursor.None?)
  {
    PagesFollowOn(tree, flags, view, sizes);
    assert |Listing(tree, flags)| == |tree|;
  }
}
