/** Word lists: grouping the list-item paragraphs of a document by list, and
    resolving which list and paragraph a mutation is aimed at. */
module ListMetadata {
  import opened Wrappers

  datatype Kind = Numbered | Bulleted | Picture

  datatype ListItem = ListItem(level: nat, listString: string)

  // levelTypes gives the kind of each level as far as the host reports one.
  datatype HostList = HostList(id: int, levelTypes: seq<Option<Kind>>)

  // A paragraph with its list proxies; a null object is None.
  datatype HostParagraph = HostParagraph(text: string, isListItem: bool, item: Option<ListItem>, list: Option<HostList>)

  datatype Item = Item(paragraphIndex: nat, text: string, level: nat, listString: string)

  datatype ListInfo = ListInfo(listId: int, kind: Option<Kind>, itemCount: nat, firstIndex: nat,
                               firstParagraph: HostParagraph, lastParagraph: HostParagraph,
                               itemParagraphs: map<nat, HostParagraph>, items: seq<Item>)

  // ---------------------------------------------------------------- specification

  predicate Live(p: HostParagraph) {
    p.isListItem && p.item.Some? && p.list.Some?
  }

  function KindAt(types: seq<Option<Kind>>, level: nat): Option<Kind> {
    if level < |types| then types[level] else None
  }

  ghost predicate LiveAt(ps: seq<HostParagraph>, i: int) {
    0 <= i < |ps| && Live(ps[i])
  }

  ghost predicate Belongs(ps: seq<HostParagraph>, id: int, i: int) {
    LiveAt(ps, i) && ps[i].list.value.id == id
  }

  function ItemOf(ps: seq<HostParagraph>, i: nat): Item
    requires i < |ps| && Live(ps[i])
  {
    Item(i, ps[i].text, ps[i].item.value.level, ps[i].item.value.listString)
  }

  // Item k of the entry is a paragraph of list id below n, reported as it stands.
  ghost predicate ItemAt(ps: seq<HostParagraph>, id: int, n: nat, info: ListInfo, k: nat)
    requires k < |info.items|
  {
    var i := info.items[k].paragraphIndex;
    i < n && Belongs(ps, id, i) && info.items[k] == ItemOf(ps, i) && i in info.itemParagraphs
  }

  predicate Owns(info: ListInfo, i: int) {
    exists k :: 0 <= k < |info.items| && info.items[k].paragraphIndex == i
  }

  // The items are paragraphs of list id below n, in order.
  ghost predicate ItemsInOrder(ps: seq<HostParagraph>, id: int, n: nat, info: ListInfo) {
    && (forall k :: 0 <= k < |info.items| ==> ItemAt(ps, id, n, info, k))
    && (forall j, k :: 0 <= j < k < |info.items| ==> info.items[j].paragraphIndex < info.items[k].paragraphIndex)
  }

  // Every paragraph of list id below n is an item.
  ghost predicate OwnsAll(ps: seq<HostParagraph>, id: int, n: nat, info: ListInfo) {
    forall i {:trigger Belongs(ps, id, i)} :: i < n && Belongs(ps, id, i) ==> Owns(info, i)
  }

  ghost predicate Mapped(ps: seq<HostParagraph>, id: int, n: nat, info: ListInfo) {
    && (forall i :: i in info.itemParagraphs ==> i < n && Belongs(ps, id, i) && info.itemParagraphs[i] == ps[i])
    && info.itemCount == |info.items| == |info.itemParagraphs|
  }

  // info lists exactly the paragraphs below n that belong to list id, in order.
  ghost predicate Covers(ps: seq<HostParagraph>, id: int, n: nat, info: ListInfo) {
    info.listId == id && ItemsInOrder(ps, id, n, info) && OwnsAll(ps, id, n, info) && Mapped(ps, id, n, info)
  }

  // The rest of the entry speaks of its first and last item.
  ghost predicate Headed(ps: seq<HostParagraph>, id: int, info: ListInfo) {
    && info.items != []
    && info.firstIndex == info.items[0].paragraphIndex && Belongs(ps, id, info.firstIndex)
    && info.firstParagraph == ps[info.firstIndex]
    && info.kind == KindAt(info.firstParagraph.list.value.levelTypes, info.firstParagraph.item.value.level)
    && var last := info.items[|info.items| - 1].paragraphIndex; last < |ps| && info.lastParagraph == ps[last]
  }

  ghost predicate Described(ps: seq<HostParagraph>, id: int, n: nat, info: ListInfo) {
    Covers(ps, id, n, info) && Headed(ps, id, info)
  }

  ghost predicate EntryAt(ps: seq<HostParagraph>, lists: seq<ListInfo>, k: nat)
    requires k < |lists|
  {
    Described(ps, lists[k].listId, |ps|, lists[k])
  }

  ghost predicate HasList(lists: seq<ListInfo>, id: int) {
    exists k :: 0 <= k < |lists| && lists[k].listId == id
  }

  // One entry for each list that has a live paragraph, ordered by first paragraph.
  ghost predicate Complete(ps: seq<HostParagraph>, lists: seq<ListInfo>) {
    && (forall k :: 0 <= k < |lists| ==> EntryAt(ps, lists, k))
    && (forall j, k :: 0 <= j < k < |lists| ==> lists[j].firstIndex < lists[k].firstIndex)
    && (forall i {:trigger LiveAt(ps, i)} :: LiveAt(ps, i) ==> HasList(lists, ps[i].list.value.id))
  }

  // ---------------------------------------------------------------- the group-by

  ghost predicate Entries(ps: seq<HostParagraph>, n: nat, byId: map<int, ListInfo>) {
    forall id :: id in byId ==> Described(ps, id, n, byId[id])
  }

  // Every live paragraph below n has its list in the map.
  ghost predicate Known(ps: seq<HostParagraph>, n: nat, byId: map<int, ListInfo>) {
    forall i {:trigger LiveAt(ps, i)} :: i < n && LiveAt(ps, i) ==> ps[i].list.value.id in byId
  }

  // order lists the keys of the map by first paragraph.
  ghost predicate Ordered(byId: map<int, ListInfo>, order: seq<int>) {
    && (forall k :: 0 <= k < |order| ==> order[k] in byId)
    && (forall id :: id in byId ==> id in order)
    && (forall j, k :: 0 <= j < k < |order| ==> byId[order[j]].firstIndex < byId[order[k]].firstIndex)
  }

  ghost predicate Grouped(ps: seq<HostParagraph>, n: nat, byId: map<int, ListInfo>, order: seq<int>) {
    n <= |ps| && Entries(ps, n, byId) && Known(ps, n, byId) && Ordered(byId, order)
  }

  lemma DescribedStays(ps: seq<HostParagraph>, id: int, n: nat, info: ListInfo)
    requires Described(ps, id, n, info) && !Belongs(ps, id, n)
    ensures Described(ps, id, n + 1, info)
  {
    var m := n + 1;
    forall k | 0 <= k < |info.items| ensures ItemAt(ps, id, m, info, k) { assert ItemAt(ps, id, n, info, k); }
  }

  // A new entry for a list nobody has named before, still without items.
  function FreshInfo(p: HostParagraph, i: nat): ListInfo
    requires Live(p)
  {
    ListInfo(p.list.value.id, KindAt(p.list.value.levelTypes, p.item.value.level), 0, i, p, p, map[], [])
  }

  function AddItem(info: ListInfo, ps: seq<HostParagraph>, i: nat): ListInfo
    requires i < |ps| && Live(ps[i])
  {
    info.(itemCount := info.itemCount + 1, lastParagraph := ps[i],
          itemParagraphs := info.itemParagraphs[i := ps[i]], items := info.items + [ItemOf(ps, i)])
  }

  lemma ItemAdded(ps: seq<HostParagraph>, id: int, n: nat, info: ListInfo)
    requires Belongs(ps, id, n) && Covers(ps, id, n, info)
    ensures Covers(ps, id, n + 1, AddItem(info, ps, n))
  {
    ItemsGrow(ps, id, n, info);
    OwnersGrow(ps, id, n, info);
    MappedGrows(ps, id, n, info);
  }

  lemma ItemsGrow(ps: seq<HostParagraph>, id: int, n: nat, info: ListInfo)
    requires Belongs(ps, id, n) && ItemsInOrder(ps, id, n, info)
    ensures ItemsInOrder(ps, id, n + 1, AddItem(info, ps, n))
  {
    var more, m := AddItem(info, ps, n), n + 1;
    forall k | 0 <= k < |info.items| ensures ItemAt(ps, id, m, more, k) && info.items[k].paragraphIndex < n {
      assert ItemAt(ps, id, n, info, k);
    }
    assert ItemAt(ps, id, m, more, |info.items|);
  }

  lemma OwnersGrow(ps: seq<HostParagraph>, id: int, n: nat, info: ListInfo)
    requires Belongs(ps, id, n) && OwnsAll(ps, id, n, info)
    ensures OwnsAll(ps, id, n + 1, AddItem(info, ps, n))
  {
    var more := AddItem(info, ps, n);
    forall i | i < n + 1 && Belongs(ps, id, i) ensures Owns(more, i) {
      if i < n {
        var k :| 0 <= k < |info.items| && info.items[k].paragraphIndex == i;
        assert more.items[k].paragraphIndex == i;
      } else {
        assert more.items[|info.items|].paragraphIndex == i;
      }
    }
  }

  lemma MappedGrows(ps: seq<HostParagraph>, id: int, n: nat, info: ListInfo)
    requires Belongs(ps, id, n) && Mapped(ps, id, n, info)
    ensures Mapped(ps, id, n + 1, AddItem(info, ps, n))
  {
    assert n !in info.itemParagraphs;
  }

  lemma HeadStays(ps: seq<HostParagraph>, id: int, n: nat, info: ListInfo)
    requires Belongs(ps, id, n) && if info.items == [] then info == FreshInfo(ps[n], n) else Headed(ps, id, info)
    ensures Headed(ps, id, AddItem(info, ps, n))
  {}

  lemma FreshCovers(ps: seq<HostParagraph>, id: int, n: nat, byId: map<int, ListInfo>, order: seq<int>)
    requires Grouped(ps, n, byId, order) && Belongs(ps, id, n) && id !in byId
    ensures Covers(ps, id, n, FreshInfo(ps[n], n))
  {}

  lemma ParagraphAdded(ps: seq<HostParagraph>, n: nat, byId: map<int, ListInfo>, order: seq<int>)
    requires n < |ps| && Live(ps[n]) && Grouped(ps, n, byId, order)
    ensures var id := ps[n].list.value.id;
            var info := if id in byId then byId[id] else FreshInfo(ps[n], n);
            Grouped(ps, n + 1, byId[id := AddItem(info, ps, n)], if id in byId then order else order + [id])
  {
    var id := ps[n].list.value.id;
    assert Belongs(ps, id, n);
    var info := if id in byId then byId[id] else FreshInfo(ps[n], n);
    if id !in byId { FreshCovers(ps, id, n, byId, order); } else { assert Described(ps, id, n, byId[id]); }
    ItemAdded(ps, id, n, info);
    HeadStays(ps, id, n, info);
    GroupReplaced(ps, n, byId, order, id, AddItem(info, ps, n));
  }

  lemma GroupReplaced(ps: seq<HostParagraph>, n: nat, byId: map<int, ListInfo>, order: seq<int>, id: int,
                      info: ListInfo)
    requires Grouped(ps, n, byId, order) && Belongs(ps, id, n) && Described(ps, id, n + 1, info)
    requires info.firstIndex == if id in byId then byId[id].firstIndex else n
    ensures Grouped(ps, n + 1, byId[id := info], if id in byId then order else order + [id])
  {
    EntriesStay(ps, n, byId, id, info);
    KnownStays(ps, n, byId, id, info);
    OrderStays(ps, n, byId, order, id, info);
  }

  lemma EntriesStay(ps: seq<HostParagraph>, n: nat, byId: map<int, ListInfo>, id: int, info: ListInfo)
    requires Entries(ps, n, byId) && Belongs(ps, id, n) && Described(ps, id, n + 1, info)
    ensures Entries(ps, n + 1, byId[id := info])
  {
    forall other | other in byId && other != id ensures Described(ps, other, n + 1, byId[other]) {
      DescribedStays(ps, other, n, byId[other]);
    }
  }

  lemma KnownStays(ps: seq<HostParagraph>, n: nat, byId: map<int, ListInfo>, id: int, info: ListInfo)
    requires Known(ps, n, byId) && Belongs(ps, id, n)
    ensures Known(ps, n + 1, byId[id := info])
  {}

  lemma FirstIsBelow(ps: seq<HostParagraph>, n: nat, byId: map<int, ListInfo>, id: int)
    requires Entries(ps, n, byId) && id in byId
    ensures byId[id].firstIndex < n
  {
    assert ItemAt(ps, id, n, byId[id], 0);
  }

  lemma OrderStays(ps: seq<HostParagraph>, n: nat, byId: map<int, ListInfo>, order: seq<int>, id: int, info: ListInfo)
    requires Entries(ps, n, byId) && Ordered(byId, order)
    requires info.firstIndex == if id in byId then byId[id].firstIndex else n
    ensures Ordered(byId[id := info], if id in byId then order else order + [id])
  {
    forall k | 0 <= k < |order| ensures byId[order[k]].firstIndex < n { FirstIsBelow(ps, n, byId, order[k]); }
    OrderGrows(n, byId, order, id, info);
  }

  lemma OrderGrows(n: nat, byId: map<int, ListInfo>, order: seq<int>, id: int, info: ListInfo)
    requires Ordered(byId, order)
    requires forall k :: 0 <= k < |order| ==> byId[order[k]].firstIndex < n
    requires info.firstIndex == if id in byId then byId[id].firstIndex else n
    ensures Ordered(byId[id := info], if id in byId then order else order + [id])
  {}

  lemma ParagraphSkipped(ps: seq<HostParagraph>, n: nat, byId: map<int, ListInfo>, order: seq<int>)
    requires n < |ps| && !Live(ps[n]) && Grouped(ps, n, byId, order)
    ensures Grouped(ps, n + 1, byId, order)
  {
    EntriesPass(ps, n, byId);
  }

  lemma EntriesPass(ps: seq<HostParagraph>, n: nat, byId: map<int, ListInfo>)
    requires n < |ps| && !Live(ps[n]) && Entries(ps, n, byId)
    ensures Entries(ps, n + 1, byId)
  {
    forall id | id in byId ensures Described(ps, id, n + 1, byId[id]) { DescribedStays(ps, id, n, byId[id]); }
  }

  lemma ListsComplete(ps: seq<HostParagraph>, byId: map<int, ListInfo>, order: seq<int>, lists: seq<ListInfo>)
    requires Grouped(ps, |ps|, byId, order)
    requires |lists| == |order| && forall k :: 0 <= k < |order| ==> order[k] in byId && lists[k] == byId[order[k]]
    ensures Complete(ps, lists)
  {
    forall k | 0 <= k < |lists| ensures EntryAt(ps, lists, k) { assert Described(ps, order[k], |ps|, byId[order[k]]); }
    forall i | LiveAt(ps, i) ensures HasList(lists, ps[i].list.value.id) {
      var k :| 0 <= k < |order| && order[k] == ps[i].list.value.id;
      assert lists[k].listId == order[k];
    }
  }

  lemma Overwritten(m: map<int, ListInfo>, id: int, a: ListInfo, b: ListInfo)
    ensures m[id := a][id := b] == m[id := b]
  {}

  method GroupByList(ps: seq<HostParagraph>) returns (byId: map<int, ListInfo>, order: seq<int>)
    ensures Grouped(ps, |ps|, byId, order)
  {
    byId, order := map[], [];
    for i := 0 to |ps|
      invariant Grouped(ps, i, byId, order)
    {
      if !Live(ps[i]) {
        ParagraphSkipped(ps, i, byId, order);
        continue;
      }
      ParagraphAdded(ps, i, byId, order);
      var listId := ps[i].list.value.id;
      if listId !in byId {
        Overwritten(byId, listId, FreshInfo(ps[i], i), AddItem(FreshInfo(ps[i], i), ps, i));
        byId := byId[listId := FreshInfo(ps[i], i)];
        order := order + [listId];
      }
      byId := byId[listId := AddItem(byId[listId], ps, i)];
    }
  }

  method Values(byId: map<int, ListInfo>, order: seq<int>) returns (lists: seq<ListInfo>)
    requires forall k :: 0 <= k < |order| ==> order[k] in byId
    ensures |lists| == |order| && forall k :: 0 <= k < |order| ==> lists[k] == byId[order[k]]
  {
    lists := [];
    for k := 0 to |order|
      invariant |lists| == k && forall j :: 0 <= j < k ==> lists[j] == byId[order[j]]
    {
      lists := lists + [byId[order[k]]];
    }
  }

  method CollectListMetadata(ps: seq<HostParagraph>) returns (lists: seq<ListInfo>)
    ensures Complete(ps, lists)
  {
    var byId, order := GroupByList(ps);
    lists := Values(byId, order);
    ListsComplete(ps, byId, order, lists);
    SortedStays(lists);
    lists := SortByFirst(lists);
  }

  // ---------------------------------------------------------------- order

  // A stable sort by first paragraph index.
  function Insert(s: seq<ListInfo>, x: ListInfo): seq<ListInfo> {
    if s == [] || s[|s| - 1].firstIndex <= x.firstIndex then s + [x]
    else Insert(s[..|s| - 1], x) + [s[|s| - 1]]
  }

  function SortByFirst(s: seq<ListInfo>): seq<ListInfo> {
    if s == [] then [] else Insert(SortByFirst(s[..|s| - 1]), s[|s| - 1])
  }

  ghost predicate Sorted(s: seq<ListInfo>) {
    forall j, k :: 0 <= j < k < |s| ==> s[j].firstIndex <= s[k].firstIndex
  }

  lemma {:induction false} InsertSorts(s: seq<ListInfo>, x: ListInfo)
    requires Sorted(s)
    ensures Sorted(Insert(s, x)) && multiset(Insert(s, x)) == multiset(s) + multiset{x}
  {
    if s != [] && s[|s| - 1].firstIndex > x.firstIndex {
      var front, last := s[..|s| - 1], s[|s| - 1];
      InsertSorts(front, x);
      assert s == front + [last];
      forall y | y in Insert(front, x) ensures y.firstIndex <= last.firstIndex {
        assert y in multiset(front) + multiset{x};
        assert y in front || y == x;
      }
      SortedSnoc(Insert(front, x), last);
    } else {
      forall y | y in s ensures y.firstIndex <= x.firstIndex {}
      SortedSnoc(s, x);
    }
  }

  lemma SortedSnoc(s: seq<ListInfo>, x: ListInfo)
    requires Sorted(s) && forall y :: y in s ==> y.firstIndex <= x.firstIndex
    ensures Sorted(s + [x])
  {}

  // Whatever it is given, the sort orders it by first paragraph and loses nothing.
  lemma {:induction false} SortSorts(s: seq<ListInfo>)
    ensures Sorted(SortByFirst(s)) && multiset(SortByFirst(s)) == multiset(s)
  {
    if s != [] {
      SortSorts(s[..|s| - 1]);
      InsertSorts(SortByFirst(s[..|s| - 1]), s[|s| - 1]);
      assert s == s[..|s| - 1] + [s[|s| - 1]];
    }
  }

  // The groups are made in the order the sort asks for, so it moves nothing.
  lemma {:induction false} SortedStays(s: seq<ListInfo>)
    requires forall j, k :: 0 <= j < k < |s| ==> s[j].firstIndex < s[k].firstIndex
    ensures SortByFirst(s) == s
  {
    if s != [] {
      SortedStays(s[..|s| - 1]);
      assert s[..|s| - 1] + [s[|s| - 1]] == s;
    }
  }

  // ---------------------------------------------------------------- a partition

  // The first index of an entry is the least paragraph of its list.
  lemma {:induction false} FirstIsLeast(ps: seq<HostParagraph>, id: int, info: ListInfo, i: nat)
    requires Described(ps, id, |ps|, info) && Belongs(ps, id, i)
    ensures info.firstIndex <= i
  {
    assert Owns(info, i);
    var k :| 0 <= k < |info.items| && info.items[k].paragraphIndex == i;
    assert k == 0 || info.items[0].paragraphIndex < info.items[k].paragraphIndex;
  }

  lemma OneEntryPerList(ps: seq<HostParagraph>, lists: seq<ListInfo>, j: nat, k: nat)
    requires Complete(ps, lists) && j < |lists| && k < |lists| && lists[j].listId == lists[k].listId
    ensures j == k
  {
    assert EntryAt(ps, lists, j) && EntryAt(ps, lists, k);
    FirstIsLeast(ps, lists[j].listId, lists[j], lists[k].firstIndex);
    FirstIsLeast(ps, lists[k].listId, lists[k], lists[j].firstIndex);
  }

  // Every live list paragraph is an item of exactly one list, that of its own id,
  // and nothing else is an item.
  lemma ItemsOfEntry(ps: seq<HostParagraph>, lists: seq<ListInfo>, k: nat, i: int)
    requires Complete(ps, lists) && k < |lists|
    ensures Owns(lists[k], i) <==> Belongs(ps, lists[k].listId, i)
  {
    var info := lists[k];
    assert EntryAt(ps, lists, k);
    if Owns(info, i) {
      var n :| 0 <= n < |info.items| && info.items[n].paragraphIndex == i;
      assert ItemAt(ps, info.listId, |ps|, info, n);
    }
  }

  lemma ItemsArePartitioned(ps: seq<HostParagraph>, lists: seq<ListInfo>, i: int)
    requires Complete(ps, lists)
    ensures LiveAt(ps, i) <==> exists k :: 0 <= k < |lists| && Owns(lists[k], i)
    ensures forall j, k :: 0 <= j < |lists| && 0 <= k < |lists| && Owns(lists[j], i) && Owns(lists[k], i) ==> j == k
  {
    if LiveAt(ps, i) {
      var k :| 0 <= k < |lists| && lists[k].listId == ps[i].list.value.id;
      ItemsOfEntry(ps, lists, k, i);
    }
    forall j, k | 0 <= j < |lists| && 0 <= k < |lists| && Owns(lists[j], i) && Owns(lists[k], i)
      ensures j == k && LiveAt(ps, i)
    {
      ItemsOfEntry(ps, lists, j, i);
      ItemsOfEntry(ps, lists, k, i);
      OneEntryPerList(ps, lists, j, k);
    }
  }

  // An entry shows its paragraphs as they stand, and takes its kind from the level of the
  // first one if the host reports one for that level.
  lemma {:induction false} EntriesShowParagraphs(ps: seq<HostParagraph>, lists: seq<ListInfo>, k: nat, m: nat)
    requires Complete(ps, lists) && k < |lists| && m < |lists[k].items|
    ensures var info, i := lists[k], lists[k].items[m].paragraphIndex;
            && i < |ps| && ps[i].isListItem && ps[i].item.Some? && ps[i].list.Some?
            && ps[i].list.value.id == info.listId
            && info.items[m].text == ps[i].text
            && info.items[m].level == ps[i].item.value.level
            && info.items[m].listString == ps[i].item.value.listString
            && info.itemCount == |info.items| && info.firstIndex == info.items[0].paragraphIndex < |ps|
            && info.firstParagraph == ps[info.firstIndex] && info.firstParagraph.item.Some?
            && info.firstParagraph.list.Some?
            && i in info.itemParagraphs && info.itemParagraphs[i] == ps[i]
            && info.items[|info.items| - 1].paragraphIndex < |ps|
            && info.lastParagraph == ps[info.items[|info.items| - 1].paragraphIndex]
    ensures var info := lists[k];
            var level, kinds := info.firstParagraph.item.value.level, info.firstParagraph.list.value.levelTypes;
            && (info.kind.Some? <==> level < |kinds| && kinds[level].Some?)
            && (info.kind.Some? ==> info.kind == kinds[level])
  {
    assert EntryAt(ps, lists, k) && ItemAt(ps, lists[k].listId, |ps|, lists[k], m);
  }

  // ---------------------------------------------------------------- word.update_list

  datatype Action = AddItemAction | SetItemLevel | AttachParagraph | DetachParagraph | SetLevelFormat

  datatype Target = Target(list: Option<ListInfo>, paragraph: Option<HostParagraph>)

  datatype Resolution = InvalidArgument | Resolved(target: Target)

  function FindById(lists: seq<ListInfo>, id: int): (r: Option<ListInfo>)
    ensures r.Some? ==> r.value in lists && r.value.listId == id
    ensures r.None? ==> forall k :: 0 <= k < |lists| ==> lists[k].listId != id
  {
    if lists == [] then None else if lists[0].listId == id then Some(lists[0]) else FindById(lists[1..], id)
  }

  function FindOwner(lists: seq<ListInfo>, i: int): (r: Option<ListInfo>)
    ensures r.Some? ==> r.value in lists && Owns(r.value, i)
    ensures r.None? ==> forall k :: 0 <= k < |lists| ==> !Owns(lists[k], i)
  {
    if lists == [] then None else if Owns(lists[0], i) then Some(lists[0]) else FindOwner(lists[1..], i)
  }

  function ResolveListMutationTarget(lists: seq<ListInfo>, ps: seq<HostParagraph>, listId: Option<int>,
                                     paragraphIndex: Option<int>, action: Action): (r: Resolution)
  {
    var named := if listId.Some? then FindById(lists, listId.value) else None;
    if listId.Some? && named.None? then InvalidArgument
    else if paragraphIndex.Some? && !(0 <= paragraphIndex.value < |ps|) then InvalidArgument
    else
      var owner := if paragraphIndex.Some? then FindOwner(lists, paragraphIndex.value) else None;
      if paragraphIndex.Some? && action in {SetItemLevel, DetachParagraph} && owner.None? then InvalidArgument
      else
        var list := if named.Some? then named else owner;
        if action in {AddItemAction, SetLevelFormat} && list.None? then InvalidArgument
        else Resolved(Target(list, if paragraphIndex.Some? then Some(ps[paragraphIndex.value]) else None))
  }

  // Which list a paragraph belongs to, read off the document itself.
  ghost function ListOf(ps: seq<HostParagraph>, i: Option<int>): Option<int> {
    if i.Some? && LiveAt(ps, i.value) then Some(ps[i.value].list.value.id) else None
  }

  ghost predicate Exists(ps: seq<HostParagraph>, id: int) {
    exists i :: Belongs(ps, id, i)
  }

  lemma OwnerIsList(ps: seq<HostParagraph>, lists: seq<ListInfo>, i: int)
    requires Complete(ps, lists)
    ensures var owner := FindOwner(lists, i);
            if owner.Some? then Belongs(ps, owner.value.listId, i) else !LiveAt(ps, i)
  {
    var owner := FindOwner(lists, i);
    if owner.Some? {
      var k :| 0 <= k < |lists| && lists[k] == owner.value;
      ItemsOfEntry(ps, lists, k, i);
    } else if LiveAt(ps, i) {
      ItemsArePartitioned(ps, lists, i);
    }
  }

  lemma NamedIsList(ps: seq<HostParagraph>, lists: seq<ListInfo>, id: int)
    requires Complete(ps, lists)
    ensures FindById(lists, id).Some? <==> Exists(ps, id)
  {
    var named := FindById(lists, id);
    if named.Some? {
      var k :| 0 <= k < |lists| && lists[k] == named.value;
      assert EntryAt(ps, lists, k) && Belongs(ps, id, lists[k].firstIndex);
    }
    if i :| Belongs(ps, id, i) {
      assert LiveAt(ps, i) && HasList(lists, id);
    }
  }

  // The target in terms of the document: the list named wins over the paragraph's
  // own list, and the call is refused exactly when something it needs is missing.
  lemma TargetIsDecided(ps: seq<HostParagraph>, lists: seq<ListInfo>, listId: Option<int>, i: Option<int>,
                        action: Action)
    requires Complete(ps, lists)
    ensures var r := ResolveListMutationTarget(lists, ps, listId, i, action);
            && (r.InvalidArgument? <==>
                  || (listId.Some? && !Exists(ps, listId.value))
                  || (i.Some? && !(0 <= i.value < |ps|))
                  || (i.Some? && action in {SetItemLevel, DetachParagraph} && ListOf(ps, i).None?)
                  || (action in {AddItemAction, SetLevelFormat} && listId.None? && ListOf(ps, i).None?))
            && (r.Resolved? ==>
                  && r.target.paragraph == (if i.Some? then Some(ps[i.value]) else None)
                  && (if listId.Some? || ListOf(ps, i).Some? then
                        r.target.list.Some? && r.target.list.value in lists
                        && Some(r.target.list.value.listId) == (if listId.Some? then listId else ListOf(ps, i))
                      else r.target.list.None?))
  {
    if listId.Some? { NamedIsList(ps, lists, listId.value); }
    if i.Some? { OwnerIsList(ps, lists, i.value); }
  }

  // add_item at position after_paragraph inserts after the target list's own entry
  // for the paragraph. When list and paragraph are both named, that entry exists
  // exactly when the paragraph is an item of that very list; resolving the target
  // does not check it.
  lemma AnchorMayBeMissing(ps: seq<HostParagraph>, lists: seq<ListInfo>, id: int, i: int)
    requires Complete(ps, lists) && Exists(ps, id) && 0 <= i < |ps|
    ensures var r := ResolveListMutationTarget(lists, ps, Some(id), Some(i), AddItemAction);
            && r.Resolved? && r.target.list.Some?
            && (i in r.target.list.value.itemParagraphs <==> ListOf(ps, Some(i)) == Some(id))
  {
    NamedIsList(ps, lists, id);
    TargetIsDecided(ps, lists, Some(id), Some(i), AddItemAction);
    var info := FindById(lists, id).value;
    var k :| 0 <= k < |lists| && lists[k] == info;
    assert EntryAt(ps, lists, k);
    if Belongs(ps, id, i) {
      assert Owns(info, i);
      var n :| 0 <= n < |info.items| && info.items[n].paragraphIndex == i;
      assert ItemAt(ps, id, |ps|, info, n);
    }
  }
}
