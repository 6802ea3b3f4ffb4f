// What every parameter of a listing leaves out, in which order grants are listed, and how they
// are cut into pages (packages/grants/src/stores.ts:147-188).
module GrantFilters {
  import opened Wrappers
  import opened Text
  import opened GrantStore
  import opened GrantListing

  // A grant is listed exactly if it is in the store and matches.
  lemma ListedExactly(gs: seq<Grant>, p: Params, g: Grant)
    requires DistinctIds(gs)
    ensures g in FullListing(gs, p) <==> g in gs && Matches(p, g)
  {
    SelectedFacts(gs, p, None);
    SortNewestFacts(Selected(gs, p, None));
    hide Matches;
  }

  // Without filters every grant is listed.
  lemma NothingFiltered(gs: seq<Grant>, limit: Option<int>, cursor: Option<string>, g: Grant)
    requires DistinctIds(gs)
    ensures g in FullListing(gs, Params(limit, cursor, None, None, None, None, None, None, None, None)) <==> g in gs
  {
    ListedExactly(gs, Params(limit, cursor, None, None, None, None, None, None, None, None), g);
  }

  // A status keeps the grants that have it,
  lemma StatusFilter(gs: seq<Grant>, p: Params, x: Status, g: Grant)
    requires DistinctIds(gs)
    ensures g in FullListing(gs, p.(status := Some(x)))
            <==> g in FullListing(gs, p.(status := None)) && g.status == x
  {
    ListedExactly(gs, p.(status := Some(x)), g);
    ListedExactly(gs, p.(status := None), g);
    hide FullListing;
  }

  // an excluded status those that have another,
  lemma ExcludedStatusFilter(gs: seq<Grant>, p: Params, x: Status, g: Grant)
    requires DistinctIds(gs)
    ensures g in FullListing(gs, p.(excludeStatus := Some(x)))
            <==> g in FullListing(gs, p.(excludeStatus := None)) && g.status != x
  {
    ListedExactly(gs, p.(excludeStatus := Some(x)), g);
    ListedExactly(gs, p.(excludeStatus := None), g);
    hide FullListing;
  }

  // requesters those of one of them, where with a broker owner (or null) a brokered grant
  // must have that owner instead; a broker owner alone says nothing,
  lemma RequesterFilter(gs: seq<Grant>, p: Params, xs: set<string>, g: Grant)
    requires DistinctIds(gs)
    ensures g in FullListing(gs, p.(requester := Some(xs), brokerOwner := None))
            <==> g in FullListing(gs, p.(requester := None, brokerOwner := None)) && g.request.requester in xs
    ensures forall owner ::
              g in FullListing(gs, p.(requester := Some(xs), brokerOwner := Some(owner)))
              <==> g in FullListing(gs, p.(requester := None, brokerOwner := None))
                   && (if g.brokered.None? then g.request.requester in xs else owner == Some(g.brokered.value.owner))
    ensures forall owner ::
              g in FullListing(gs, p.(requester := None, brokerOwner := owner))
              <==> g in FullListing(gs, p.(requester := None, brokerOwner := None))
  {
    ListedExactly(gs, p.(requester := Some(xs), brokerOwner := None), g);
    ListedExactly(gs, p.(requester := None, brokerOwner := None), g);
    hide FullListing;
    forall owner
      ensures g in FullListing(gs, p.(requester := Some(xs), brokerOwner := Some(owner)))
              <==> g in FullListing(gs, p.(requester := None, brokerOwner := None))
                   && (if g.brokered.None? then g.request.requester in xs else owner == Some(g.brokered.value.owner))
    {
      ListedExactly(gs, p.(requester := Some(xs), brokerOwner := Some(owner)), g);
    }
    forall owner
      ensures g in FullListing(gs, p.(requester := None, brokerOwner := owner))
              <==> g in FullListing(gs, p.(requester := None, brokerOwner := None))
    {
      ListedExactly(gs, p.(requester := None, brokerOwner := owner), g);
    }
  }

  // a requester filter those of this requester,
  lemma OneRequesterFilter(gs: seq<Grant>, p: Params, x: string, g: Grant)
    requires DistinctIds(gs)
    ensures g in FullListing(gs, p.(requesterFilter := Some(x)))
            <==> g in FullListing(gs, p.(requesterFilter := None)) && (x == "" || g.request.requester == x)
  {
    ListedExactly(gs, p.(requesterFilter := Some(x)), g);
    ListedExactly(gs, p.(requesterFilter := None), g);
    hide FullListing;
  }

  // a batch those of this batch,
  lemma BatchFilter(gs: seq<Grant>, p: Params, x: string, g: Grant)
    requires DistinctIds(gs)
    ensures g in FullListing(gs, p.(batch := Some(x)))
            <==> g in FullListing(gs, p.(batch := None)) && (x == "" || g.request.batch == Some(x))
  {
    ListedExactly(gs, p.(batch := Some(x)), g);
    ListedExactly(gs, p.(batch := None), g);
    hide FullListing;
  }

  // a reference those of this reference,
  lemma ReferenceFilter(gs: seq<Grant>, p: Params, x: string, g: Grant)
    requires DistinctIds(gs)
    ensures g in FullListing(gs, p.(reference := Some(x)))
            <==> g in FullListing(gs, p.(reference := None)) && (x == "" || g.request.reference == Some(x))
  {
    ListedExactly(gs, p.(reference := Some(x)), g);
    ListedExactly(gs, p.(reference := None), g);
    hide FullListing;
  }

  // and a reference key those whose reference has this key.
  lemma ReferenceKeyFilter(gs: seq<Grant>, p: Params, x: string, g: Grant)
    requires DistinctIds(gs)
    ensures g in FullListing(gs, p.(referenceKey := Some(x)))
            <==> g in FullListing(gs, p.(referenceKey := None))
                 && (x == "" || (g.request.reference.Some? && KeyOf(g.request, g.brokered) == x))
  {
    ListedExactly(gs, p.(referenceKey := Some(x)), g);
    ListedExactly(gs, p.(referenceKey := None), g);
    hide FullListing, KeyOf;
  }

  // Newer grants come first, and of the same moment those with the greater id.
  lemma NewestFirst(gs: seq<Grant>, p: Params, i: nat, j: nat)
    requires DistinctIds(gs) && i < j < |FullListing(gs, p)|
    ensures var a, b := FullListing(gs, p)[i], FullListing(gs, p)[j];
            a.createdAt > b.createdAt || (a.createdAt == b.createdAt && Less(b.id, a.id))
  {
    SelectedFacts(gs, p, None);
    SortNewestFacts(Selected(gs, p, None));
  }

  // The first page has the first grants of the listing: 20, or as many as are asked for
  // within 1 and 100; more is announced exactly if some are left.
  lemma FirstPage(gs: seq<Grant>, p: Params)
    requires p.cursor.None?
    ensures var size := match p.limit
              case None => 20
              case Some(n) => if n <= 1 then 1 else if n >= 100 then 100 else n;
            var all := FullListing(gs, p);
            && ListGrants(gs, p).Some?
            && var page := ListGrants(gs, p).value;
            && page.data == all[..if |all| <= size then |all| else size]
            && (page.hasMore <==> |all| > size)
  {
    hide Selected, SortNewest, GrantCursor;
  }

  // A cursor leads past the grants that do not come after its position: those created
  // before it, or at the same moment with a smaller id if it names one.
  lemma CursorPosition(gs: seq<Grant>, p: Params, position: Position, g: Grant)
    requires DistinctIds(gs)
    ensures g in SortNewest(Selected(gs, p, Some(position)))
            <==> g in FullListing(gs, p)
                 && (g.createdAt < position.createdAt
                     || (position.id.Some? && g.createdAt == position.createdAt && Less(g.id, position.id.value)))
  {
    SelectedFacts(gs, p, Some(position));
    SortNewestFacts(Selected(gs, p, Some(position)));
    ListedExactly(gs, p, g);
    hide Matches, FullListing;
  }
}
