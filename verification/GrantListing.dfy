// Keyset pagination of grants (packages/grants/src/stores.ts:147-188,
// packages/grants/src/grant-cursor.ts).
module GrantListing {
  import opened Wrappers
  import opened Text
  import opened GrantStore
  import GrantReference
  import Glob

  // ---------------------------------------------------------------- cursors

  datatype Position = Position(createdAt: nat, id: Option<string>)

  const MAX_SAFE_INTEGER: nat := 0x1F_FFFF_FFFF_FFFF
  const MAX_ID_LENGTH: nat := 256

  function CursorAt(createdAt: nat, id: string): string {
    Decimal(createdAt) + ":" + id
  }

  // `grantCursor`
  function GrantCursor(g: Grant): string {
    CursorAt(g.createdAt, g.id)
  }

  // How many digits a text starts with.
  function LeadingDigits(s: string): (n: nat)
    ensures n <= |s| && AllDigits(s[..n]) && (n < |s| ==> !IsDigit(s[n]))
  {
    if |s| == 0 || !IsDigit(s[0]) then 0
    else
      var n := 1 + LeadingDigits(s[1..]);
      assert s[..n] == [s[0]] + s[1..][..n - 1];
      n
  }

  predicate PrintableId(id: string) {
    0 < |id| <= MAX_ID_LENGTH && forall c :: c in id ==> !Glob.LineTerminator(c)
  }

  // `parseGrantCursor`; an invalid cursor throws
  function ParseCursor(cursor: string): Option<Position> {
    var n := LeadingDigits(cursor);
    if n == 0 || NumberOf(cursor[..n]) > MAX_SAFE_INTEGER then None
    else if n == |cursor| then Some(Position(NumberOf(cursor), None))
    else if cursor[n] == ':' && PrintableId(cursor[n + 1..])
      then Some(Position(NumberOf(cursor[..n]), Some(cursor[n + 1..])))
    else None
  }

  predicate Printable(g: Grant) {
    PrintableId(g.id) && g.createdAt <= MAX_SAFE_INTEGER
  }

  lemma {:induction false} LeadingDigitsOfNumeral(digits: string, rest: string)
    requires AllDigits(digits) && (rest == "" || !IsDigit(rest[0]))
    ensures LeadingDigits(digits + rest) == |digits|
  {
    if |digits| == 0 {
      assert digits + rest == rest;
    } else {
      assert digits[0] in digits;
      assert (digits + rest)[1..] == digits[1..] + rest;
      LeadingDigitsOfNumeral(digits[1..], rest);
    }
  }

  // A printed cursor reads back as the position of its grant exactly when the id has 1 to
  // 256 characters without line terminators and the time is a safe integer.
  lemma CursorRoundTrip(g: Grant)
    ensures Printable(g) <==>
              && 1 <= |g.id| <= 256
              && '\n' !in g.id && '\r' !in g.id && '\U{2028}' !in g.id && '\U{2029}' !in g.id
              && g.createdAt < 9007199254740992
    ensures ParseCursor(GrantCursor(g)) == Some(Position(g.createdAt, Some(g.id))) <==> Printable(g)
    ensures !Printable(g) ==> ParseCursor(GrantCursor(g)) == None
  {
    PrintableMeans(g);
    hide PrintableId, Decimal, LeadingDigits, NumberOf;
    var digits, cursor := Decimal(g.createdAt), GrantCursor(g);
    assert cursor == digits + (":" + g.id);
    LeadingDigitsOfNumeral(digits, ":" + g.id);
    DecimalRoundTrip(g.createdAt);
    assert cursor[..|digits|] == digits && cursor[|digits|] == ':' && cursor[|digits| + 1..] == g.id;
  }

  lemma PrintableMeans(g: Grant)
    ensures Printable(g) <==>
              && 1 <= |g.id| <= 256
              && '\n' !in g.id && '\r' !in g.id && '\U{2028}' !in g.id && '\U{2029}' !in g.id
              && g.createdAt < 9007199254740992
  {
  }

  // Cursors of older clients are a time only; anything that is neither is refused.
  lemma OlderCursors(cursor: string)
    ensures forall n: nat :: cursor == Decimal(n) ==>
              ParseCursor(cursor) == if n < 9007199254740992 then Some(Position(n, None)) else None
    ensures ParseCursor(cursor).Some? ==>
              exists digits, rest :: AllDigits(digits) && digits != "" && cursor == digits + rest
                                     && (rest == "" || rest[0] == ':')
                                     && ParseCursor(cursor).value.createdAt == NumberOf(digits)
                                     && ParseCursor(cursor).value.id == if rest == "" then None else Some(rest[1..])
  {
    var n := LeadingDigits(cursor);
    assert cursor == cursor[..n] + cursor[n..];
    forall m: nat | cursor == Decimal(m) ensures n == |cursor| && NumberOf(cursor) == m {
      assert cursor + "" == cursor;
      LeadingDigitsOfNumeral(cursor, "");
      DecimalRoundTrip(m);
    }
    assert cursor[..|cursor|] == cursor;
  }

  // ---------------------------------------------------------------- order

  // `a` is listed before `b`.
  predicate Newer(a: Grant, b: Grant) {
    a.createdAt > b.createdAt || (a.createdAt == b.createdAt && Less(b.id, a.id))
  }

  // `g` comes after a cursor position.
  predicate Past(g: Grant, p: Position) {
    g.createdAt < p.createdAt || (p.id.Some? && g.createdAt == p.createdAt && Less(g.id, p.id.value))
  }

  predicate PastOptional(g: Grant, p: Option<Position>) {
    p.Some? ==> Past(g, p.value)
  }

  lemma NewerFacts(a: Grant, b: Grant, c: Grant)
    ensures !Newer(a, a) && !(Newer(a, b) && Newer(b, a))
    ensures a.id != b.id ==> Newer(a, b) || Newer(b, a)
    ensures Newer(a, b) && Newer(b, c) ==> Newer(a, c)
  {
    LessIsStrict(a.id, b.id);
    LessIsTotal(a.id, b.id);
    if Newer(a, b) && Newer(b, c) && a.createdAt == c.createdAt { LessIsTransitive(c.id, b.id, a.id); }
  }

  ghost predicate Sorted(gs: seq<Grant>) {
    forall i, j :: 0 <= i < j < |gs| ==> Newer(gs[i], gs[j])
  }

  ghost predicate DistinctIds(gs: seq<Grant>) {
    forall i, j :: 0 <= i < j < |gs| ==> gs[i].id != gs[j].id
  }

  function InsertNewest(g: Grant, gs: seq<Grant>): seq<Grant> {
    if |gs| == 0 || Newer(g, gs[0]) then [g] + gs else [gs[0]] + InsertNewest(g, gs[1..])
  }

  function SortNewest(gs: seq<Grant>): seq<Grant> {
    if |gs| == 0 then [] else InsertNewest(gs[0], SortNewest(gs[1..]))
  }

  lemma {:induction false} InsertNewestFacts(g: Grant, gs: seq<Grant>)
    requires Sorted(gs) && forall h :: h in gs ==> h.id != g.id
    ensures Sorted(InsertNewest(g, gs)) && |InsertNewest(g, gs)| == |gs| + 1
    ensures forall h :: h in InsertNewest(g, gs) <==> h == g || h in gs
  {
    if |gs| > 0 {
      assert gs == [gs[0]] + gs[1..];
      if Newer(g, gs[0]) {
        forall j | 0 < j < |gs| ensures Newer(g, gs[j]) { NewerFacts(g, gs[0], gs[j]); }
      } else {
        NewerFacts(g, gs[0], gs[0]);
        InsertNewestFacts(g, gs[1..]);
        var rest := InsertNewest(g, gs[1..]);
        forall j | 0 <= j < |rest| ensures Newer(gs[0], rest[j]) {
          assert rest[j] in rest;
          if rest[j] != g { var i :| 0 <= i < |gs[1..]| && gs[1..][i] == rest[j]; }
        }
      }
    }
  }

  lemma {:induction false} SortNewestFacts(gs: seq<Grant>)
    requires DistinctIds(gs)
    ensures Sorted(SortNewest(gs)) && |SortNewest(gs)| == |gs|
    ensures forall g :: g in SortNewest(gs) <==> g in gs
  {
    if |gs| > 0 {
      SortNewestFacts(gs[1..]);
      forall h | h in SortNewest(gs[1..]) ensures h.id != gs[0].id {
        var i :| 0 <= i < |gs[1..]| && gs[1..][i] == h;
        assert gs[1..][i] == gs[i + 1];
      }
      InsertNewestFacts(gs[0], SortNewest(gs[1..]));
      assert gs == [gs[0]] + gs[1..];
    }
  }

  // ---------------------------------------------------------------- filters

  datatype Params = Params(
    limit: Option<int>,
    cursor: Option<string>,
    status: Option<Status>,
    excludeStatus: Option<Status>,
    requester: Option<set<string>>,
    brokerOwner: Option<Option<string>>, // undefined, null or an owner
    requesterFilter: Option<string>,
    batch: Option<string>,
    reference: Option<string>,
    referenceKey: Option<string>)

  predicate Given(s: Option<string>) {
    s.Some? && s.value != ""
  }

  predicate Matches(p: Params, g: Grant) {
    && (p.status.Some? ==> g.status == p.status.value)
    && (p.excludeStatus.Some? ==> g.status != p.excludeStatus.value)
    && (p.requester.Some? ==>
          if p.brokerOwner.Some? && g.brokered.Some?
          then p.brokerOwner.value == Some(g.brokered.value.owner)
          else g.request.requester in p.requester.value)
    && (Given(p.requesterFilter) ==> g.request.requester == p.requesterFilter.value)
    && (Given(p.batch) ==> g.request.batch == p.batch)
    && (Given(p.reference) ==> g.request.reference == p.reference)
    && (Given(p.referenceKey) ==> HasKey(g, p.referenceKey.value))
  }

  function Selected(gs: seq<Grant>, p: Params, after: Option<Position>): seq<Grant> {
    if |gs| == 0 then []
    else (if Matches(p, gs[0]) && PastOptional(gs[0], after) then [gs[0]] else []) + Selected(gs[1..], p, after)
  }

  lemma {:induction false} SelectedFacts(gs: seq<Grant>, p: Params, after: Option<Position>)
    requires DistinctIds(gs)
    ensures DistinctIds(Selected(gs, p, after))
    ensures forall g :: g in Selected(gs, p, after) <==> g in gs && Matches(p, g) && PastOptional(g, after)
  {
    if |gs| > 0 {
      assert forall i :: 0 <= i < |gs| - 1 ==> gs[1..][i] == gs[i + 1];
      SelectedFacts(gs[1..], p, after);
      assert gs == [gs[0]] + gs[1..];
      var rest := Selected(gs[1..], p, after);
      forall j | 0 <= j < |rest| ensures rest[j].id != gs[0].id { assert rest[j] in rest; }
    }
  }

  function Limit(p: Params): (n: nat)
    ensures 1 <= n <= 100
  {
    var wanted := if p.limit.Some? then p.limit.value else 20;
    if wanted < 1 then 1 else if wanted > 100 then 100 else wanted
  }

  datatype Page = Page(data: seq<Grant>, cursor: Option<string>, hasMore: bool)

  function PageOf(sorted: seq<Grant>, limit: nat): Page
    requires limit > 0
  {
    var data := if |sorted| > limit then sorted[..limit] else sorted;
    Page(data, if |data| > 0 then Some(GrantCursor(data[|data| - 1])) else None, |sorted| > limit)
  }

  // `listGrants` on the grants of a store; an invalid cursor throws.
  function ListGrants(gs: seq<Grant>, p: Params): Option<Page> {
    if !Given(p.cursor) then Some(PageOf(SortNewest(Selected(gs, p, None)), Limit(p)))
    else
      var position := ParseCursor(p.cursor.value);
      if position.None? then None
      else Some(PageOf(SortNewest(Selected(gs, p, position)), Limit(p)))
  }

  // The same, written as the source does it: filter, sort, then apply the cursor.
  method ListGrantsInSteps(gs: seq<Grant>, p: Params) returns (page: Option<Page>)
    requires DistinctIds(gs)
    ensures page == ListGrants(gs, p)
  {
    var limit := Limit(p);
    var grants := SortNewest(Selected(gs, p, None));
    var after: Option<Position> := None;
    if Given(p.cursor) {
      after := ParseCursor(p.cursor.value);
      if after.None? {
        return None;
      }
      CursorAfterSort(gs, p, after);
      grants := DropUntil(grants, after);
    }
    return Some(PageOf(grants, limit));
  }

  function DropUntil(gs: seq<Grant>, after: Option<Position>): seq<Grant> {
    if |gs| == 0 then [] else (if PastOptional(gs[0], after) then [gs[0]] else []) + DropUntil(gs[1..], after)
  }

  lemma {:induction false} DropUntilFacts(gs: seq<Grant>, after: Option<Position>)
    requires Sorted(gs)
    ensures Sorted(DropUntil(gs, after))
    ensures forall g :: g in DropUntil(gs, after) <==> g in gs && PastOptional(g, after)
  {
    if |gs| > 0 {
      DropUntilFacts(gs[1..], after);
      var rest := DropUntil(gs[1..], after);
      assert gs == [gs[0]] + gs[1..];
      forall j | 0 <= j < |rest| ensures Newer(gs[0], rest[j]) {
        assert rest[j] in rest;
        var i :| 0 <= i < |gs[1..]| && gs[1..][i] == rest[j];
      }
    }
  }

  lemma TailMembers(a: seq<Grant>, b: seq<Grant>)
    requires Sorted(a) && |a| > 0 && |b| > 0 && a[0] == b[0] && forall g :: g in a ==> g in b
    ensures forall g :: g in a[1..] ==> g in b[1..]
  {
    forall g | g in a[1..] ensures g in b[1..] {
      var k :| 0 <= k < |a[1..]| && a[1..][k] == g;
      assert Newer(a[0], a[k + 1]);
      NewerFacts(g, g, g);
      assert g in b && b == [b[0]] + b[1..];
    }
  }

  lemma {:induction false} SortedIsUnique(a: seq<Grant>, b: seq<Grant>)
    requires Sorted(a) && Sorted(b) && forall g :: g in a <==> g in b
    ensures a == b
  {
    assert (|a| > 0 ==> a[0] in b) && (|b| > 0 ==> b[0] in a);
    if |a| > 0 && |b| > 0 {
      var i :| 0 <= i < |b| && b[i] == a[0];
      var j :| 0 <= j < |a| && a[j] == b[0];
      NewerFacts(a[0], b[0], b[0]);
      assert a[0] == b[0];
      assert a == [a[0]] + a[1..] && b == [b[0]] + b[1..];
      TailMembers(a, b);
      TailMembers(b, a);
      SortedIsUnique(a[1..], b[1..]);
    }
  }

  lemma CursorAfterSort(gs: seq<Grant>, p: Params, after: Option<Position>)
    requires DistinctIds(gs)
    ensures DropUntil(SortNewest(Selected(gs, p, None)), after) == SortNewest(Selected(gs, p, after))
  {
    SelectedFacts(gs, p, None);
    SelectedFacts(gs, p, after);
    SortNewestFacts(Selected(gs, p, None));
    SortNewestFacts(Selected(gs, p, after));
    DropUntilFacts(SortNewest(Selected(gs, p, None)), after);
    SortedIsUnique(DropUntil(SortNewest(Selected(gs, p, None)), after), SortNewest(Selected(gs, p, after)));
  }

  // ---------------------------------------------------------------- one page

  // Where the next page starts.
  function NextPosition(page: Page): Option<Position> {
    if |page.data| == 0 then None
    else var last := page.data[|page.data| - 1]; Some(Position(last.createdAt, Some(last.id)))
  }

  // The page of a store that starts after a position.
  ghost predicate IsPage(gs: seq<Grant>, p: Params, after: Option<Position>, page: Page) {
    page == PageOf(SortNewest(Selected(gs, p, after)), Limit(p))
  }

  // A grant is on the page exactly when it matches, comes after the position, and does not
  // come after the last grant of the page; nothing that matches is skipped.
  lemma PageMembers(gs: seq<Grant>, p: Params, after: Option<Position>, page: Page, g: Grant)
    requires DistinctIds(gs) && IsPage(gs, p, after, page)
    ensures Sorted(page.data)
    ensures g in page.data <==>
            g in gs && Matches(p, g) && PastOptional(g, after)
            && (page.hasMore ==> |page.data| > 0 && !PastOptional(g, NextPosition(page)))
    ensures page.hasMore ==> |page.data| > 0
  {
    var sorted, limit := SortNewest(Selected(gs, p, after)), Limit(p);
    SelectedFacts(gs, p, after);
    SortNewestFacts(Selected(gs, p, after));
    hide Selected, SortNewest, Matches, Newer, PastOptional, GrantCursor, Limit;
    if page.hasMore {
      PrefixIsSorted(sorted, limit);
      PrefixMembers(sorted, limit - 1, g);
      NewerIsPast(sorted[limit - 1], g);
    }
  }

  lemma PrefixIsSorted(sorted: seq<Grant>, k: nat)
    requires Sorted(sorted) && k <= |sorted|
    ensures Sorted(sorted[..k])
  {
  }

  // Cutting a sorted list after its k-th element keeps exactly what does not come after it.
  lemma PrefixMembers(sorted: seq<Grant>, k: nat, g: Grant)
    requires Sorted(sorted) && k < |sorted|
    ensures g in sorted[..k + 1] <==> g in sorted && !Newer(sorted[k], g)
  {
    var last := sorted[k];
    if g in sorted {
      var i :| 0 <= i < |sorted| && sorted[i] == g;
      NewerFacts(g, last, last);
      assert i <= k ==> sorted[..k + 1][i] == g;
      assert i > k ==> Newer(last, g);
      assert i < k ==> Newer(g, last);
      if g in sorted[..k + 1] {
        var j :| 0 <= j < k + 1 && sorted[j] == g;
        assert j < k ==> Newer(g, last);
      }
    }
  }

  lemma NewerIsPast(last: Grant, g: Grant)
    ensures Past(g, Position(last.createdAt, Some(last.id))) <==> Newer(last, g)
    ensures PastOptional(g, Some(Position(last.createdAt, Some(last.id)))) <==> Newer(last, g)
  {
  }

  // ---------------------------------------------------------------- following cursors

  // The same in terms of positions: page i starts after the last grant of the page before.
  ghost predicate IsTraversal(snapshots: seq<seq<Grant>>, p: Params, pages: seq<Page>) {
    && |pages| == |snapshots| > 0
    && (forall i :: 0 <= i < |pages| ==> DistinctIds(snapshots[i]))
    && (forall i :: 0 <= i < |pages| ==> (pages[i].hasMore <==> i < |pages| - 1))
    && forall i :: 0 <= i < |pages| ==> IsPage(snapshots[i], p, Start(pages, i), pages[i])
  }

  function Start(pages: seq<Page>, i: nat): Option<Position>
    requires i <= |pages|
  {
    if i == 0 then None else NextPosition(pages[i - 1])
  }

  // A finished traversal: page i is what listing answers on the store as it then was, given
  // the cursor text of the page before; every page but the last announces more.
  ghost predicate FollowsCursors(snapshots: seq<seq<Grant>>, p: Params, pages: seq<Page>) {
    && |pages| == |snapshots| > 0
    && (forall i :: 0 <= i < |pages| ==> DistinctIds(snapshots[i]) && forall g :: g in snapshots[i] ==> Printable(g))
    && (forall i :: 0 <= i < |pages| ==> (pages[i].hasMore <==> i < |pages| - 1))
    && forall i :: 0 <= i < |pages| ==>
         ListGrants(snapshots[i], p.(cursor := if i == 0 then None else pages[i - 1].cursor)) == Some(pages[i])
  }

  // With printable grants, the cursor strings of the source carry exactly these positions.
  lemma CursorsCarryPositions(gs: seq<Grant>, p: Params, before: Page)
    requires |before.data| > 0 && Printable(before.data[|before.data| - 1])
    requires before.cursor == Some(GrantCursor(before.data[|before.data| - 1]))
    ensures ListGrants(gs, p.(cursor := before.cursor))
            == Some(PageOf(SortNewest(Selected(gs, p, NextPosition(before))), Limit(p)))
  {
    var last := before.data[|before.data| - 1];
    CursorRoundTrip(last);
    CursorIsIgnoredByFilters(gs, p, before.cursor, NextPosition(before));
  }

  lemma {:induction false} CursorIsIgnoredByFilters(gs: seq<Grant>, p: Params, cursor: Option<string>,
                                                    after: Option<Position>)
    ensures Selected(gs, p.(cursor := cursor), after) == Selected(gs, p, after)
  {
    if |gs| > 0 { CursorIsIgnoredByFilters(gs[1..], p, cursor, after); }
  }

  // A version of the same grant: updates change neither id nor creation time.
  predicate SameGrant(a: Grant, b: Grant) {
    a.id == b.id && a.createdAt == b.createdAt
  }

  // A grant that matches in every snapshot: its version at each page.
  ghost predicate MatchesThroughout(snapshots: seq<seq<Grant>>, p: Params, versions: seq<Grant>) {
    && |versions| == |snapshots|
    && (forall i :: 0 <= i < |versions| ==> versions[i] in snapshots[i] && Matches(p, versions[i]))
    && forall i, j :: 0 <= i < |versions| && 0 <= j < |versions| ==> SameGrant(versions[i], versions[j])
  }

  // Which page a grant is on: the first that it does not come after.
  function HomePage(pages: seq<Page>, g: Grant, i: nat): nat
    requires i < |pages|
    decreases |pages| - i
  {
    if i == |pages| - 1 || !PastOptional(g, NextPosition(pages[i])) then i else HomePage(pages, g, i + 1)
  }

  lemma {:induction false} HomePageFacts(pages: seq<Page>, g: Grant, i: nat)
    requires i < |pages| && PastOptional(g, Start(pages, i))
    ensures var h := HomePage(pages, g, i);
            && i <= h < |pages| && PastOptional(g, Start(pages, h))
            && (forall j :: i <= j < h ==> PastOptional(g, NextPosition(pages[j])))
            && (h < |pages| - 1 ==> !PastOptional(g, NextPosition(pages[h])))
    decreases |pages| - i
  {
    if i < |pages| - 1 && PastOptional(g, NextPosition(pages[i])) { HomePageFacts(pages, g, i + 1); }
  }

  // The pages descend: what comes after a later page comes after every earlier one.
  lemma {:induction false} StartsDescend(snapshots: seq<seq<Grant>>, p: Params, pages: seq<Page>, i: nat, j: nat,
                                         g: Grant)
    requires IsTraversal(snapshots, p, pages) && i <= j < |pages|
    requires PastOptional(g, Start(pages, j))
    ensures PastOptional(g, Start(pages, i))
    decreases j - i
  {
    hide Matches, IsPage, Less, SortNewest, Selected;
    if i < j {
      var before := pages[j - 1];
      assert IsPage(snapshots[j - 1], p, Start(pages, j - 1), before);
      LastFollowsStart(snapshots[j - 1], p, Start(pages, j - 1), before);
      var last := before.data[|before.data| - 1];
      PastTransitive(g, last, Start(pages, j - 1));
      StartsDescend(snapshots, p, pages, i, j - 1, g);
    }
  }

  lemma LastFollowsStart(gs: seq<Grant>, p: Params, after: Option<Position>, page: Page)
    requires DistinctIds(gs) && IsPage(gs, p, after, page) && page.hasMore
    ensures |page.data| > 0 && PastOptional(page.data[|page.data| - 1], after)
  {
    var sorted := SortNewest(Selected(gs, p, after));
    PageMembers(gs, p, after, page, sorted[Limit(p) - 1]);
  }

  lemma PastTransitive(g: Grant, l: Grant, after: Option<Position>)
    requires Past(g, Position(l.createdAt, Some(l.id))) && PastOptional(l, after)
    ensures PastOptional(g, after)
  {
    if after.Some? && after.value.id.Some? && g.createdAt == l.createdAt == after.value.createdAt {
      LessIsTransitive(g.id, l.id, after.value.id.value);
    }
  }

  // Cursor texts lead from page to page as positions do.
  lemma CursorsLeadOn(snapshots: seq<seq<Grant>>, p: Params, pages: seq<Page>)
    requires FollowsCursors(snapshots, p, pages)
    ensures IsTraversal(snapshots, p, pages)
  {
    forall i | 0 <= i < |pages| ensures IsPage(snapshots[i], p, Start(pages, i), pages[i]) {
      CursorLeadsOn(snapshots, p, pages, i);
    }
  }

  lemma {:induction false} CursorLeadsOn(snapshots: seq<seq<Grant>>, p: Params, pages: seq<Page>, i: nat)
    requires FollowsCursors(snapshots, p, pages) && i < |pages|
    ensures IsPage(snapshots[i], p, Start(pages, i), pages[i])
  {
    hide Matches, Selected, SortNewest, Printable, GrantCursor, ParseCursor;
    if i == 0 {
      CursorIsIgnoredByFilters(snapshots[0], p, None, None);
    } else {
      CursorLeadsOn(snapshots, p, pages, i - 1);
      PageIsPrintable(snapshots[i - 1], p, Start(pages, i - 1), pages[i - 1]);
      CursorsCarryPositions(snapshots[i], p, pages[i - 1]);
    }
  }

  // However the store changes between the pages, a grant that matches throughout is
  // returned on exactly one page.
  lemma ReturnedExactlyOnce(snapshots: seq<seq<Grant>>, p: Params, pages: seq<Page>, versions: seq<Grant>)
    requires FollowsCursors(snapshots, p, pages) && MatchesThroughout(snapshots, p, versions)
    ensures exists h :: 0 <= h < |pages| && versions[h] in pages[h].data
                        && forall i :: 0 <= i < |pages| && i != h ==>
                            forall g :: g in pages[i].data ==> g.id != versions[0].id
  {
    CursorsLeadOn(snapshots, p, pages);
    OnOnePage(snapshots, p, pages, versions);
  }

  lemma OnOnePage(snapshots: seq<seq<Grant>>, p: Params, pages: seq<Page>, versions: seq<Grant>)
    requires IsTraversal(snapshots, p, pages) && MatchesThroughout(snapshots, p, versions)
    ensures exists h :: 0 <= h < |pages| && versions[h] in pages[h].data
                        && forall i :: 0 <= i < |pages| && i != h ==>
                            forall g :: g in pages[i].data ==> g.id != versions[0].id
  {
    hide Matches, IsPage, Less, SortNewest, Selected, HomePage;
    var v := versions[0];
    var h := HomePage(pages, v, 0);
    HomePageFacts(pages, v, 0);
    assert SameGrant(versions[h], v);
    SameGrantPastSame(versions[h], v);
    assert IsPage(snapshots[h], p, Start(pages, h), pages[h]);
    PageMembers(snapshots[h], p, Start(pages, h), pages[h], versions[h]);
    assert versions[h] in pages[h].data;
    forall i, g | 0 <= i < |pages| && i != h && g in pages[i].data ensures g.id != v.id {
      if g.id == v.id { NotOnOtherPage(snapshots, p, pages, versions, h, i, g); }
    }
  }

  lemma SameGrantPastSame(a: Grant, b: Grant)
    requires SameGrant(a, b)
    ensures forall p :: PastOptional(a, p) == PastOptional(b, p)
  {
  }

  lemma TraversalAt(snapshots: seq<seq<Grant>>, p: Params, pages: seq<Page>, i: nat)
    requires IsTraversal(snapshots, p, pages) && i < |pages|
    ensures |snapshots| == |pages| && DistinctIds(snapshots[i]) && (pages[i].hasMore <==> i < |pages| - 1)
    ensures IsPage(snapshots[i], p, Start(pages, i), pages[i])
  {
  }

  lemma StartAfter(pages: seq<Page>, i: nat)
    requires i < |pages|
    ensures Start(pages, i + 1) == NextPosition(pages[i])
  {
  }

  lemma VersionAt(snapshots: seq<seq<Grant>>, p: Params, versions: seq<Grant>, i: nat)
    requires MatchesThroughout(snapshots, p, versions) && i < |snapshots|
    ensures |versions| == |snapshots| && versions[i] in snapshots[i] && SameGrant(versions[i], versions[0])
  {
  }

  lemma NotOnOtherPage(snapshots: seq<seq<Grant>>, p: Params, pages: seq<Page>, versions: seq<Grant>, h: nat, i: nat,
                       g: Grant)
    requires IsTraversal(snapshots, p, pages) && MatchesThroughout(snapshots, p, versions)
    requires h < |pages| && i < |pages| && g.id == versions[0].id
    requires forall j :: 0 <= j < h ==> PastOptional(versions[0], NextPosition(pages[j]))
    requires h < |pages| - 1 ==> !PastOptional(versions[0], NextPosition(pages[h]))
    requires g in pages[i].data
    ensures i == h
  {
    hide *;
    TraversalAt(snapshots, p, pages, i);
    VersionAt(snapshots, p, versions, i);
    StartAfter(pages, h);
    OnPage(snapshots[i], p, Start(pages, i), pages[i], g, versions[i], versions[0]);
    if h < i { StartsDescend(snapshots, p, pages, h + 1, i, versions[0]); }
  }

  // Where a grant on a page stands, said of another version of it.
  lemma OnPage(gs: seq<Grant>, p: Params, after: Option<Position>, page: Page, g: Grant, version: Grant, other: Grant)
    requires DistinctIds(gs) && IsPage(gs, p, after, page) && g in page.data && version in gs
    requires g.id == other.id && SameGrant(version, other)
    ensures PastOptional(other, after) && (page.hasMore ==> !PastOptional(other, NextPosition(page)))
  {
    PageMembers(gs, p, after, page, g);
    hide Matches, IsPage, SortNewest, Selected, NextPosition;
    VersionIsUnique(gs, g, version);
    SameGrantPastSame(g, other);
  }

  lemma VersionIsUnique(gs: seq<Grant>, a: Grant, b: Grant)
    requires DistinctIds(gs) && a in gs && b in gs && a.id == b.id
    ensures a == b
  {
    var i :| 0 <= i < |gs| && gs[i] == a;
    var j :| 0 <= j < |gs| && gs[j] == b;
  }

  // ---------------------------------------------------------------- a store at rest

  // Everything a listing has to return, in order.
  function FullListing(gs: seq<Grant>, p: Params): seq<Grant> {
    SortNewest(Selected(gs, p, None))
  }

  // What is still to be returned after a page.
  function Remaining(gs: seq<Grant>, p: Params, page: Page): seq<Grant> {
    if page.hasMore then SortNewest(Selected(gs, p, NextPosition(page))) else []
  }

  // Cutting a sorted list after its k-th element keeps exactly what comes after that element.
  lemma SuffixMembers(sorted: seq<Grant>, k: nat, g: Grant)
    requires Sorted(sorted) && k < |sorted|
    ensures g in sorted[k + 1..] <==> g in sorted && Newer(sorted[k], g)
  {
    var last := sorted[k];
    if g in sorted[k + 1..] {
      var j :| 0 <= j < |sorted[k + 1..]| && sorted[k + 1..][j] == g; assert sorted[k + 1 + j] == g;
    }
    if g in sorted && Newer(last, g) {
      var j :| 0 <= j < |sorted| && sorted[j] == g;
      NewerFacts(last, g, g);
      NewerFacts(g, last, last);
      assert sorted[k + 1..][j - k - 1] == g;
    }
  }

  lemma SelectedAfterLast(gs: seq<Grant>, p: Params, after: Option<Position>, last: Grant, g: Grant)
    requires DistinctIds(gs) && last in Selected(gs, p, after)
    ensures g in Selected(gs, p, Some(Position(last.createdAt, Some(last.id))))
            <==> g in Selected(gs, p, after) && Newer(last, g)
  {
    SelectedFacts(gs, p, after);
    SelectedFacts(gs, p, Some(Position(last.createdAt, Some(last.id))));
    hide Matches, Selected;
    if Newer(last, g) { PastTransitive(g, last, after); }
  }

  // The list after a position is its page followed by the list after the page.
  lemma RestAfterPage(gs: seq<Grant>, p: Params, after: Option<Position>, page: Page)
    requires DistinctIds(gs) && IsPage(gs, p, after, page)
    ensures SortNewest(Selected(gs, p, after)) == page.data + Remaining(gs, p, page)
    ensures page.hasMore ==> |page.data| > 0
  {
    hide Matches, SortNewest, Selected, Less, Newer, Limit;
    var sorted, limit := SortNewest(Selected(gs, p, after)), Limit(p);
    if page.hasMore {
      SuffixIsNextList(gs, p, after, limit - 1);
      assert sorted == sorted[..limit] + sorted[limit..];
    }
  }

  // What comes after the k-th element of a list is the list after that element.
  lemma SuffixIsNextList(gs: seq<Grant>, p: Params, after: Option<Position>, k: nat)
    requires DistinctIds(gs) && k < |SortNewest(Selected(gs, p, after))|
    ensures var sorted := SortNewest(Selected(gs, p, after));
            sorted[k + 1..] == SortNewest(Selected(gs, p, Some(Position(sorted[k].createdAt, Some(sorted[k].id)))))
  {
    var sorted := SortNewest(Selected(gs, p, after));
    var last := sorted[k];
    var next := Some(Position(last.createdAt, Some(last.id)));
    hide Matches, SortNewest, Selected, Newer, PastOptional;
    SelectedFacts(gs, p, after);
    SortNewestFacts(Selected(gs, p, after));
    SelectedFacts(gs, p, next);
    SortNewestFacts(Selected(gs, p, next));
    assert last in sorted;
    forall g ensures g in sorted[k + 1..] <==> g in SortNewest(Selected(gs, p, next)) {
      SuffixMembers(sorted, k, g);
      SelectedAfterLast(gs, p, after, last, g);
    }
    SortedIsUnique(sorted[k + 1..], SortNewest(Selected(gs, p, next)));
  }

  // A page that announces more is followed by a page with data.
  lemma NextPageExists(gs: seq<Grant>, p: Params, before: Option<Position>, next: Page, page: Page)
    requires DistinctIds(gs) && page.hasMore && before == NextPosition(page) && IsPage(gs, p, before, next)
    requires exists after :: IsPage(gs, p, after, page)
    ensures |next.data| > 0
  {
    var after :| IsPage(gs, p, after, page);
    RestAfterPage(gs, p, after, page);
    assert |SortNewest(Selected(gs, p, after))| > |page.data|;
    assert |Remaining(gs, p, page)| > 0;
  }

  // Follow the cursors of a store at rest until nothing more is announced: every matching
  // grant once, newest first, whatever the limit.
  method FollowCursors(gs: seq<Grant>, p: Params) returns (all: seq<Grant>)
    requires DistinctIds(gs) && !Given(p.cursor) && forall g :: g in gs ==> Printable(g)
    ensures all == FullListing(gs, p)
  {
    var page := PageOf(SortNewest(Selected(gs, p, None)), Limit(p));
    assert ListGrants(gs, p) == Some(page);
    all := page.data;
    ghost var after: Option<Position> := None;
    RestAfterPage(gs, p, None, page);
    while page.hasMore
      invariant IsPage(gs, p, after, page)
      invariant SortNewest(Selected(gs, p, None)) == all + Remaining(gs, p, page)
      decreases |Remaining(gs, p, page)|
    {
      PageIsPrintable(gs, p, after, page);
      CursorsCarryPositions(gs, p, page);
      var next := ListGrants(gs, p.(cursor := page.cursor)).value;
      after := NextPosition(page);
      RestAfterPage(gs, p, after, next);
      NextPageExists(gs, p, after, next, page);
      all := all + next.data;
      page := next;
    }
  }

  lemma PageIsPrintable(gs: seq<Grant>, p: Params, after: Option<Position>, page: Page)
    requires DistinctIds(gs) && IsPage(gs, p, after, page) && page.hasMore && forall g :: g in gs ==> Printable(g)
    ensures |page.data| > 0 && Printable(page.data[|page.data| - 1])
    ensures page.cursor == Some(GrantCursor(page.data[|page.data| - 1]))
  {
    var last := page.data[|page.data| - 1];
    PageMembers(gs, p, after, page, last);
  }

  // ---------------------------------------------------------------- the grants of a store

  // Ids are listed once, in the order in which they were first set, and name their grants.
  ghost predicate Coherent(s: Store) {
    && (forall i, j :: 0 <= i < j < |s.order| ==> s.order[i] != s.order[j])
    && (forall id :: id in s.order <==> id in s.grants)
    && forall id :: id in s.grants ==> s.grants[id].id == id
  }

  // The values of the map of grants.
  function Listed(grants: map<string, Grant>, order: seq<string>): seq<Grant> {
    if |order| == 0 then []
    else (if order[0] in grants then [grants[order[0]]] else []) + Listed(grants, order[1..])
  }

  lemma {:induction false} ListedMembers(grants: map<string, Grant>, order: seq<string>)
    ensures forall g :: g in Listed(grants, order) <==> exists id :: id in order && id in grants && grants[id] == g
  {
    if |order| > 0 {
      ListedMembers(grants, order[1..]);
      assert order == [order[0]] + order[1..];
    }
  }

  lemma {:induction false} ListedDistinct(grants: map<string, Grant>, order: seq<string>)
    requires forall i, j :: 0 <= i < j < |order| ==> order[i] != order[j]
    requires forall id :: id in grants ==> grants[id].id == id
    ensures DistinctIds(Listed(grants, order))
  {
    if |order| > 0 {
      assert forall i :: 0 <= i < |order| - 1 ==> order[1..][i] == order[i + 1];
      ListedDistinct(grants, order[1..]);
      ListedMembers(grants, order[1..]);
      var rest := Listed(grants, order[1..]);
      forall j | 0 <= j < |rest| ensures rest[j].id != order[0] {
        assert rest[j] in rest;
        var id :| id in order[1..] && id in grants && grants[id] == rest[j];
      }
    }
  }

  // A store lists every grant once.
  lemma ListedFacts(s: Store)
    requires Coherent(s)
    ensures DistinctIds(Listed(s.grants, s.order))
    ensures forall g :: g in Listed(s.grants, s.order) <==> g.id in s.grants && s.grants[g.id] == g
  {
    ListedDistinct(s.grants, s.order);
    ListedMembers(s.grants, s.order);
  }
}
