// Page arithmetic, and the chat variant that hands out each page in reverse.
module Pagination {

  import opened Options

  datatype PageRequest = PageRequest(page: Option<int>, limit: Option<int>)

  datatype Meta = Meta(total: nat, page: int, limit: int, totalPages: int, hasNextPage: bool, hasPrevPage: bool)

  datatype Paginated<T> = Paginated(items: seq<T>, meta: Meta)

  // An absent page or a zero falls back to the default.
  function OrDefault(v: Option<int>, fallback: int): int {
    if v.Some? && v.value != 0 then v.value else fallback
  }

  function PageOf(req: PageRequest): int { OrDefault(req.page, 1) }

  function LimitOf(req: PageRequest): (r: int)
    ensures r != 0
  {
    OrDefault(req.limit, 20)
  }

  function PaginationParams(req: PageRequest): (int, int) {
    ((PageOf(req) - 1) * LimitOf(req), LimitOf(req))
  }

  // The quotient rounded up.
  function CeilDiv(a: nat, b: int): int
    requires b != 0
  {
    if b > 0 then (a + b - 1) / b else -(a / -b)
  }

  function BuildPaginatedResponse<T>(items: seq<T>, total: nat, req: PageRequest): Paginated<T> {
    var page, limit := PageOf(req), LimitOf(req);
    var totalPages := CeilDiv(total, limit);
    Paginated(items, Meta(total, page, limit, totalPages, page < totalPages, page > 1))
  }

  // What a query returns of an ordered list.
  function Fetch<T>(list: seq<T>, skip: nat, take: nat): seq<T> {
    if skip >= |list| then [] else if skip + take >= |list| then list[skip..] else list[skip..skip + take]
  }

  function Start(page: int, limit: int): (r: nat)
    requires page >= 1 && limit >= 1
  {
    StartNat(page, limit);
    (page - 1) * limit
  }

  lemma StartNat(page: int, limit: int)
    requires page >= 1 && limit >= 1
    ensures (page - 1) * limit >= 0
  {
  }

  // A list endpoint: the query for one page and the envelope around it.
  function ListPage<T>(list: seq<T>, req: PageRequest): Paginated<T>
    requires PageOf(req) >= 1 && LimitOf(req) >= 1
  {
    StartNat(PageOf(req), LimitOf(req));
    var (skip, take) := PaginationParams(req);
    BuildPaginatedResponse(Fetch(list, skip, take), |list|, req)
  }

  // ---- Page counts ----

  lemma CeilBounds(a: nat, b: int)
    requires b >= 1
    ensures (CeilDiv(a, b) - 1) * b < a <= CeilDiv(a, b) * b || (a == 0 && CeilDiv(a, b) == 0)
  {
    var q := (a + b - 1) / b;
    assert q * b + (a + b - 1) % b == a + b - 1;
    assert (q - 1) * b == q * b - b;
    if a == 0 {
      assert (b - 1) / b == 0;
    }
  }

  lemma CeilPositive(a: nat, b: int)
    requires b >= 1
    ensures CeilDiv(a, b) >= 0 && (CeilDiv(a, b) == 0 <==> a == 0)
  {
    CeilBounds(a, b);
    if CeilDiv(a, b) <= 0 { TimesMonotone(CeilDiv(a, b), 0, b); } else { TimesMonotone(1, CeilDiv(a, b), b); }
  }

  lemma TimesMonotone(x: int, y: int, b: int)
    requires x <= y && b >= 1
    ensures x * b <= y * b
  {
  }

  // There is a next page exactly when the list goes on after this page, and a page is
  // empty exactly when its number exceeds the number of pages.
  lemma NextPageIff<T>(list: seq<T>, req: PageRequest)
    requires PageOf(req) >= 1 && LimitOf(req) >= 1
    ensures var r := ListPage(list, req);
      && (r.meta.hasNextPage <==> PageOf(req) * LimitOf(req) < |list|)
      && (r.items == [] <==> PageOf(req) > r.meta.totalPages)
      && (r.meta.hasNextPage ==> |r.items| == LimitOf(req))
  {
    var p, b := PageOf(req), LimitOf(req);
    var q := CeilDiv(|list|, b);
    CeilBounds(|list|, b);
    StartNat(p, b);
    assert p * b == (p - 1) * b + b;
    hide CeilDiv, OrDefault;
    if p < q { TimesMonotone(p, q - 1, b); } else { TimesMonotone(q, p, b); }
    if p <= q { TimesMonotone(p - 1, q - 1, b); } else { TimesMonotone(q, p - 1, b); }
  }

  // What the envelope says: the defaults 1 and 20 for what is absent or zero, as few pages
  // as hold the list, and whether there is a page on either side.
  lemma EnvelopeIs<T>(items: seq<T>, total: nat, req: PageRequest)
    ensures var r, page, limit := BuildPaginatedResponse(items, total, req), req.page, req.limit;
      && r.items == items && r.meta.total == total
      && r.meta.page == (if page == None || page == Some(0) then 1 else page.value)
      && r.meta.limit == (if limit == None || limit == Some(0) then 20 else limit.value)
      && (r.meta.hasNextPage <==> r.meta.page < r.meta.totalPages)
      && (r.meta.hasPrevPage <==> r.meta.page > 1)
      && (r.meta.limit >= 1 ==>
            && total <= r.meta.totalPages * r.meta.limit
            && forall n :: n >= 0 && total <= n * r.meta.limit ==> r.meta.totalPages <= n)
  {
    var limit := LimitOf(req);
    if limit >= 1 {
      CeilBounds(total, limit);
      forall n | n >= 0 && total <= n * limit ensures CeilDiv(total, limit) <= n {
        if n < CeilDiv(total, limit) { TimesMonotone(n, CeilDiv(total, limit) - 1, limit); }
      }
    }
  }

  // A page of a list: the items from its offset on, as many as the limit allows.
  lemma ListPageIs<T>(list: seq<T>, req: PageRequest)
    requires PageOf(req) >= 1 && LimitOf(req) >= 1
    ensures var r := ListPage(list, req);
      && r.meta == BuildPaginatedResponse(r.items, |list|, req).meta
      && (forall k :: 0 <= k < |r.items| ==>
            0 <= (r.meta.page - 1) * r.meta.limit + k < |list| && r.items[k] == list[(r.meta.page - 1) * r.meta.limit + k])
      && (|r.items| == r.meta.limit || (r.meta.page - 1) * r.meta.limit + |r.items| >= |list|)
      && |r.items| <= r.meta.limit
  {
    StartNat(PageOf(req), LimitOf(req));
  }

  // ---- Reading every page ----

  // The pages a reader gets who starts at `page` and goes on while there is a next one.
  function Visited<T>(list: seq<T>, page: int, limit: int): (r: seq<Paginated<T>>)
    requires page >= 1 && limit >= 1
    decreases CeilDiv(|list|, limit) - page
  {
    var here := ListPage(list, PageRequest(Some(page), Some(limit)));
    if here.meta.hasNextPage then [here] + Visited(list, page + 1, limit) else [here]
  }

  function Items<T>(pages: seq<Paginated<T>>): seq<T> {
    if pages == [] then [] else pages[0].items + Items(pages[1..])
  }

  function Rest<T>(list: seq<T>, skip: nat): seq<T> {
    if skip <= |list| then list[skip..] else []
  }

  lemma FetchRest<T>(list: seq<T>, skip: nat, take: nat)
    ensures Fetch(list, skip, take) + Rest(list, skip + take) == Rest(list, skip)
  {
  }

  lemma StartStep(page: int, limit: int)
    requires page >= 1 && limit >= 1
    ensures Start(page + 1, limit) == page * limit == Start(page, limit) + limit
  {
  }

  lemma {:induction false} VisitedItems<T>(list: seq<T>, page: int, limit: int)
    requires page >= 1 && limit >= 1
    ensures Items(Visited(list, page, limit)) == Rest(list, Start(page, limit))
    decreases CeilDiv(|list|, limit) - page
  {
    PageThenRest(list, page, limit);
    ItemsStep(list, page, limit);
    if page < CeilDiv(|list|, limit) {
      hide *;
      VisitedItems(list, page + 1, limit);
    }
    hide *;
  }

  lemma ItemsStep<T>(list: seq<T>, page: int, limit: int)
    requires page >= 1 && limit >= 1
    ensures Items(Visited(list, page, limit))
            == ListPage(list, PageRequest(Some(page), Some(limit))).items
               + if page < CeilDiv(|list|, limit) then Items(Visited(list, page + 1, limit)) else []
  {
    var here := ListPage(list, PageRequest(Some(page), Some(limit)));
    assert here.meta.hasNextPage <==> page < CeilDiv(|list|, limit);
    assert Items<T>([]) == [];
    hide ListPage, Items, CeilDiv;
    if here.meta.hasNextPage {
      ItemsCons(here, Visited(list, page + 1, limit));
    } else {
      ItemsCons(here, []);
      assert [here] + [] == [here];
    }
  }

  // A page and what comes after it are the rest of the list from the page on; without a
  // next page nothing comes after.
  lemma PageThenRest<T>(list: seq<T>, page: int, limit: int)
    requires page >= 1 && limit >= 1
    ensures var here := ListPage(list, PageRequest(Some(page), Some(limit)));
      && here.items + Rest(list, Start(page + 1, limit)) == Rest(list, Start(page, limit))
      && (!here.meta.hasNextPage ==> here.items == Rest(list, Start(page, limit)))
      && (here.meta.hasNextPage <==> page < CeilDiv(|list|, limit))
  {
    NextPageIff(list, PageRequest(Some(page), Some(limit)));
    StartStep(page, limit);
    FetchRest(list, Start(page, limit), limit);
    hide CeilDiv, Fetch;
  }

  lemma ItemsCons<T>(p: Paginated<T>, rest: seq<Paginated<T>>)
    ensures Items([p] + rest) == p.items + Items(rest)
  {
    assert ([p] + rest)[1..] == rest;
  }

  lemma {:induction false} VisitedPages<T>(list: seq<T>, page: int, limit: int)
    requires page >= 1 && limit >= 1
    ensures var pages := Visited(list, page, limit);
      && |pages| == (if page < CeilDiv(|list|, limit) then CeilDiv(|list|, limit) - page + 1 else 1)
      && forall k :: 0 <= k < |pages| ==> pages[k] == ListPage(list, PageRequest(Some(page + k), Some(limit)))
    decreases CeilDiv(|list|, limit) - page
  {
    var here := ListPage(list, PageRequest(Some(page), Some(limit)));
    assert here.meta.hasNextPage <==> page < CeilDiv(|list|, limit);
    hide CeilDiv, ListPage;
    if here.meta.hasNextPage {
      VisitedPages(list, page + 1, limit);
      var rest := Visited(list, page + 1, limit);
      assert Visited(list, page, limit) == [here] + rest;
      hide Visited;
      forall k | 1 <= k < |rest| + 1 ensures ([here] + rest)[k] == ListPage(list, PageRequest(Some(page + k), Some(limit))) {
        assert rest[k - 1] == ListPage(list, PageRequest(Some(page + 1 + (k - 1)), Some(limit)));
      }
    }
  }

  // Following `hasNextPage` from the first page ends after visiting exactly the pages
  // 1 to `totalPages` (the first alone for an empty list), and what was read is the
  // list, every item once and in order.
  lemma PagesPartition<T>(list: seq<T>, limit: int)
    requires limit >= 1
    ensures var pages := Visited(list, 1, limit);
      && Items(pages) == list
      && |pages| == (if list == [] then 1 else CeilDiv(|list|, limit))
      && forall k :: 0 <= k < |pages| ==> pages[k].meta.page == k + 1
  {
    VisitedItems(list, 1, limit);
    VisitedPages(list, 1, limit);
    CeilPositive(|list|, limit);
    assert Start(1, limit) == 0;
    hide Visited, Items, CeilDiv, Start;
  }

  // ---- Chat ----

  function Reversed<T>(s: seq<T>): (r: seq<T>)
    ensures |r| == |s|
    ensures forall k :: 0 <= k < |s| ==> r[k] == s[|s| - 1 - k]
  {
    if s == [] then [] else Reversed(s[1..]) + [s[0]]
  }

  // One page of a conversation: the query runs newest first, the page is then reversed.
  function ChatPage<T>(chronological: seq<T>, page: int, limit: int): Paginated<T>
    requires page >= 1 && limit >= 1
  {
    var items := Fetch(Reversed(chronological), Start(page, limit), limit);
    BuildPaginatedResponse(Reversed(items), |chronological|, PageRequest(Some(page), Some(limit)))
  }

  function Max0(x: int): nat { if x < 0 then 0 else x }

  // A chat page is a stretch of the conversation, in chronological order, counted from
  // its end.
  lemma ChatPageIs<T>(ms: seq<T>, page: int, limit: int)
    requires page >= 1 && limit >= 1
    ensures ChatPage(ms, page, limit).items == ms[Max0(|ms| - page * limit)..Max0(|ms| - Start(page, limit))]
  {
    assert page * limit == Start(page, limit) + limit;
    var items := Fetch(Reversed(ms), Start(page, limit), limit);
    var lo, hi := Max0(|ms| - page * limit), Max0(|ms| - Start(page, limit));
    assert |items| == hi - lo;
    forall k | 0 <= k < |items| ensures Reversed(items)[k] == ms[lo..hi][k] {
      assert items[|items| - 1 - k] == Reversed(ms)[Start(page, limit) + |items| - 1 - k];
    }
  }

  // The chat pages `page`, `page - 1`, ..., 1 after one another.
  function LastToFirst<T>(ms: seq<T>, page: nat, limit: int): seq<T>
    requires limit >= 1
  {
    if page == 0 then [] else ChatPage(ms, page, limit).items + LastToFirst(ms, page - 1, limit)
  }

  // The last `k` messages.
  function Newest<T>(ms: seq<T>, k: nat): seq<T> {
    ms[Max0(|ms| - k)..]
  }

  lemma NewestGrows<T>(ms: seq<T>, k: nat, j: nat)
    requires j <= k
    ensures ms[Max0(|ms| - k)..Max0(|ms| - j)] + Newest(ms, j) == Newest(ms, k)
  {
  }

  lemma {:induction false} LastToFirstIs<T>(ms: seq<T>, page: nat, limit: int)
    requires limit >= 1
    ensures LastToFirst(ms, page, limit) == Newest(ms, Start(page + 1, limit))
  {
    if page > 0 {
      LastToFirstIs(ms, page - 1, limit);
      LastToFirstStep(ms, page, limit);
    } else {
      assert Start(1, limit) == 0;
    }
  }

  lemma LastToFirstStep<T>(ms: seq<T>, page: int, limit: int)
    requires page >= 1 && limit >= 1
    ensures ChatPage(ms, page, limit).items + Newest(ms, Start(page, limit)) == Newest(ms, Start(page + 1, limit))
  {
    ChatPageIs(ms, page, limit);
    StartStep(page, limit);
    hide ChatPage, Start, Newest;
    NewestGrows(ms, Start(page + 1, limit), Start(page, limit));
  }

  // Read from the last page to the first, the reversed pages are the conversation in
  // chronological order.
  lemma ChatIsChronological<T>(ms: seq<T>, limit: int)
    requires limit >= 1
    ensures LastToFirst(ms, CeilDiv(|ms|, limit), limit) == ms
  {
    CeilBounds(|ms|, limit);
    CeilPositive(|ms|, limit);
    LastToFirstIs(ms, CeilDiv(|ms|, limit), limit);
  }

  datatype Message = Message(caseId: string, text: string, deleted: bool)

  // The messages of a case that are not deleted, oldest first.
  function Conversation(messages: seq<Message>, caseId: string): seq<Message> {
    if messages == [] then []
    else
      var last := messages[|messages| - 1];
      Conversation(messages[..|messages| - 1], caseId) + (if last.caseId == caseId && !last.deleted then [last] else [])
  }

  // The message at this position belongs to the case and is not deleted.
  predicate Belongs(messages: seq<Message>, caseId: string, i: int) {
    0 <= i < |messages| && messages[i].caseId == caseId && !messages[i].deleted
  }

  function Positions(messages: seq<Message>, caseId: string): set<int> {
    set i | 0 <= i < |messages| && Belongs(messages, caseId, i)
  }

  // The positions of all such messages, in table order.
  ghost predicate InOrder(messages: seq<Message>, caseId: string, at: seq<int>) {
    && (forall k :: 0 <= k < |at| ==> Belongs(messages, caseId, at[k]))
    && (forall j, k :: 0 <= j < k < |at| ==> at[j] < at[k])
    && (forall i :: Belongs(messages, caseId, i) ==> i in at)
  }

  lemma BelongsGrows(messages: seq<Message>, last: Message, caseId: string, i: int)
    ensures Belongs(messages + [last], caseId, i) <==>
              Belongs(messages, caseId, i) || (i == |messages| && last.caseId == caseId && !last.deleted)
  {
    if 0 <= i < |messages| { assert (messages + [last])[i] == messages[i]; }
  }

  lemma PositionsGrow(messages: seq<Message>, last: Message, caseId: string)
    ensures Positions(messages + [last], caseId)
            == Positions(messages, caseId) + (if last.caseId == caseId && !last.deleted then {|messages|} else {})
  {
    forall i: int ensures Belongs(messages + [last], caseId, i) <==>
                            Belongs(messages, caseId, i) || (i == |messages| && last.caseId == caseId && !last.deleted)
    {
      BelongsGrows(messages, last, caseId, i);
    }
    assert forall i :: Belongs(messages, caseId, i) ==> 0 <= i < |messages|;
    hide Belongs;
  }

  lemma InOrderGrows(messages: seq<Message>, last: Message, caseId: string, at: seq<int>)
    requires InOrder(messages, caseId, at)
    ensures InOrder(messages + [last], caseId, if last.caseId == caseId && !last.deleted then at + [|messages|] else at)
  {
    forall i: int ensures Belongs(messages + [last], caseId, i) <==>
                            Belongs(messages, caseId, i) || (i == |messages| && last.caseId == caseId && !last.deleted)
    {
      BelongsGrows(messages, last, caseId, i);
    }
    assert forall i :: Belongs(messages, caseId, i) ==> 0 <= i < |messages|;
    hide Belongs;
    if last.caseId == caseId && !last.deleted {
      var longer := at + [|messages|];
      assert longer[|at|] == |messages|;
      forall i | i in at ensures i in longer {}
    }
  }

  function PositionList(messages: seq<Message>, caseId: string): seq<int> {
    if messages == [] then []
    else
      var last := messages[|messages| - 1];
      PositionList(messages[..|messages| - 1], caseId)
      + (if last.caseId == caseId && !last.deleted then [|messages| - 1] else [])
  }

  lemma {:induction false} PositionListInOrder(messages: seq<Message>, caseId: string)
    ensures InOrder(messages, caseId, PositionList(messages, caseId))
  {
    if messages != [] {
      var init, last := messages[..|messages| - 1], messages[|messages| - 1];
      assert messages == init + [last];
      PositionListInOrder(init, caseId);
      InOrderGrows(init, last, caseId, PositionList(init, caseId));
      hide InOrder;
      assert PositionList(init, caseId) + [] == PositionList(init, caseId);
    }
  }

  lemma {:induction false} PositionListCounts(messages: seq<Message>, caseId: string)
    ensures |PositionList(messages, caseId)| == |Positions(messages, caseId)|
  {
    if messages == [] {
      assert Positions(messages, caseId) == {};
    } else {
      var init, last := messages[..|messages| - 1], messages[|messages| - 1];
      assert messages == init + [last];
      PositionListCounts(init, caseId);
      PositionsGrow(init, last, caseId);
      assert |init| !in Positions(init, caseId);
      hide Positions;
    }
  }

  lemma {:induction false} PositionListReads(messages: seq<Message>, caseId: string)
    ensures var at := PositionList(messages, caseId);
      && |at| == |Conversation(messages, caseId)|
      && forall k :: 0 <= k < |at| ==> 0 <= at[k] < |messages| && Conversation(messages, caseId)[k] == messages[at[k]]
  {
    if messages != [] {
      var init := messages[..|messages| - 1];
      PositionListReads(init, caseId);
      var at := PositionList(init, caseId);
      forall k | 0 <= k < |at| ensures messages[at[k]] == init[at[k]] {}
    }
  }

  // The conversation is exactly the messages of the case that are not deleted, each as
  // often as it is in the table and in table order.
  lemma ConversationIs(messages: seq<Message>, caseId: string) returns (at: seq<int>)
    ensures InOrder(messages, caseId, at)
    ensures |at| == |Conversation(messages, caseId)| == |Positions(messages, caseId)|
    ensures forall k :: 0 <= k < |at| ==> 0 <= at[k] < |messages| && Conversation(messages, caseId)[k] == messages[at[k]]
  {
    at := PositionList(messages, caseId);
    PositionListInOrder(messages, caseId);
    PositionListCounts(messages, caseId);
    PositionListReads(messages, caseId);
    hide *;
  }

  // The items are the messages at these positions from `lo` on.
  predicate Stretch(messages: seq<Message>, at: seq<int>, lo: nat, items: seq<Message>) {
    forall k :: 0 <= k < |items| ==>
      lo + k < |at| && 0 <= at[lo + k] < |messages| && items[k] == messages[at[lo + k]]
  }

  lemma StretchOfSlice(messages: seq<Message>, at: seq<int>, ms: seq<Message>, lo: nat, hi: nat)
    requires |at| == |ms| && lo <= hi <= |ms|
    requires forall k :: 0 <= k < |at| ==> 0 <= at[k] < |messages| && ms[k] == messages[at[k]]
    ensures Stretch(messages, at, lo, ms[lo..hi])
  {
    forall k | 0 <= k < hi - lo ensures 0 <= at[lo + k] < |messages| && ms[lo..hi][k] == messages[at[lo + k]] {
      assert ms[lo + k] == messages[at[lo + k]];
    }
  }

  // A page of the conversation, read off the table itself.
  lemma PageOfTable(messages: seq<Message>, caseId: string, page: int, limit: int) returns (at: seq<int>)
    requires page >= 1 && limit >= 1
    ensures var ms, items := Conversation(messages, caseId), ChatPage(Conversation(messages, caseId), page, limit).items;
      && InOrder(messages, caseId, at) && |at| == |Positions(messages, caseId)| == |ms|
      && |items| == Max0(|at| - Start(page, limit)) - Max0(|at| - page * limit)
      && Stretch(messages, at, Max0(|at| - page * limit), items)
  {
    at := ConversationIs(messages, caseId);
    var ms := Conversation(messages, caseId);
    ChatPageIs(ms, page, limit);
    StartStep(page, limit);
    var lo, hi := Max0(|ms| - page * limit), Max0(|ms| - Start(page, limit));
    assert lo <= hi <= |ms|;
    hide InOrder, Positions, Conversation, ChatPage, Start, Stretch;
    StretchOfSlice(messages, at, ms, lo, hi);
  }

  lemma StretchBelongs(messages: seq<Message>, caseId: string, at: seq<int>, lo: nat, items: seq<Message>)
    requires InOrder(messages, caseId, at) && Stretch(messages, at, lo, items)
    ensures forall m :: m in items ==> m in messages && m.caseId == caseId && !m.deleted
  {
    forall k | 0 <= k < |items| ensures items[k] in messages && items[k].caseId == caseId && !items[k].deleted {
      var m := items[k];
      assert Belongs(messages, caseId, at[lo + k]);
    }
  }

  class ChatRepository {
    var messages: seq<Message> // in the order in which they were sent

    constructor ()
      ensures messages == []
    {
      messages := [];
    }

    method FindByCaseId(caseId: string, skip: nat, take: nat) returns (items: seq<Message>)
      ensures items == Fetch(Reversed(Conversation(messages, caseId)), skip, take)
    {
      items := Fetch(Reversed(Conversation(messages, caseId)), skip, take);
    }

    method CountByCaseId(caseId: string) returns (total: nat)
      ensures total == |Positions(messages, caseId)| == |Conversation(messages, caseId)|
    {
      total := 0;
      for i := 0 to |messages|
        invariant total == |Conversation(messages[..i], caseId)|
      {
        assert messages[..i + 1][..i] == messages[..i];
        if messages[i].caseId == caseId && !messages[i].deleted { total := total + 1; }
      }
      assert messages[..|messages|] == messages;
      ghost var at := ConversationIs(messages, caseId);
    }
  }

  class ChatService {
    const repository: ChatRepository

    constructor (repository: ChatRepository)
      ensures this.repository == repository
    {
      this.repository := repository;
    }

    // A page holds the stretch of the conversation that ends where the newer page began.
    method GetMessages(caseId: string, page: int, limit: int) returns (r: Paginated<Message>)
      requires page >= 1 && limit >= 1
      ensures r == ChatPage(Conversation(repository.messages, caseId), page, limit)
      ensures var ms := Conversation(repository.messages, caseId);
        r.items == ms[Max0(|ms| - page * limit)..Max0(|ms| - Start(page, limit))]
      ensures forall m :: m in r.items ==> m in repository.messages && m.caseId == caseId && !m.deleted
      ensures exists at :: InOrder(repository.messages, caseId, at) && |at| == r.meta.total
                && |r.items| == Max0(|at| - Start(page, limit)) - Max0(|at| - page * limit)
                && Stretch(repository.messages, at, Max0(|at| - page * limit), r.items)
      ensures r.meta.total == |Positions(repository.messages, caseId)| && r.meta.page == page && r.meta.limit == limit
    {
      var items := repository.FindByCaseId(caseId, Start(page, limit), limit);
      var total := repository.CountByCaseId(caseId);
      r := BuildPaginatedResponse(Reversed(items), total, PageRequest(Some(page), Some(limit)));
      ChatPageIs(Conversation(repository.messages, caseId), page, limit);
      assert r == ChatPage(Conversation(repository.messages, caseId), page, limit);
      ghost var at := PageOfTable(repository.messages, caseId, page, limit);
      EnvelopeIs(Reversed(items), total, PageRequest(Some(page), Some(limit)));
      hide ChatPage, Conversation, BuildPaginatedResponse, InOrder, Positions, Start, Stretch;
      StretchBelongs(repository.messages, caseId, at, Max0(|at| - page * limit), r.items);
    }
  }
}
