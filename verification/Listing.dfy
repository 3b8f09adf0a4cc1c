/**
 The listing fixtures: filters carried in links, facet counts beside those links, and pages.
 */
module Listing {
  import opened Common

  datatype Param = Condition | Drivetrain | Trim

  datatype Item = Item(id: string, condition: string, drivetrain: string, trim: string)

  type Filters = map<Param, string>

  /** A query string after decoding: names and values in order; `get` sees the first of a name. */
  type Query = seq<(string, string)>

  const PAGE_SIZE: nat := 6

  const FACETS: seq<Param> := [Condition, Drivetrain, Trim]

  function NameOf(param: Param): string {
    match param
    case Condition => "condition"
    case Drivetrain => "drivetrain"
    case Trim => "trim"
  }

  function FieldOf(item: Item, param: Param): string {
    match param
    case Condition => item.condition
    case Drivetrain => item.drivetrain
    case Trim => item.trim
  }

  function Get(query: Query, name: string): Option<string> {
    if query == [] then None
    else if query[0].0 == name then Some(query[0].1)
    else Get(query[1..], name)
  }

  // ----- Links and filters -----

  /** The query names a nonempty value for the parameter. */
  predicate Chosen(query: Query, p: Param) {
    Get(query, NameOf(p)).Some? && Get(query, NameOf(p)).value != ""
  }

  function FiltersOf(query: Query): Filters {
    map p: Param | Chosen(query, p) :: Get(query, NameOf(p)).value
  }

  /** The loop over the facets that reads a query: empty values do not filter. */
  method ActiveFilters(query: Query) returns (filters: Filters)
    ensures filters == FiltersOf(query)
  {
    filters := map[];
    for i := 0 to |FACETS|
      invariant forall p | p in filters :: Chosen(query, p) && filters[p] == Get(query, NameOf(p)).value
      invariant forall k | 0 <= k < i && Chosen(query, FACETS[k]) :: FACETS[k] in filters
    {
      var value := Get(query, NameOf(FACETS[i]));
      if value.Some? && |value.value| > 0 {
        filters := filters[FACETS[i] := value.value];
      }
    }
    AllFacets();
    forall p: Param | Chosen(query, p) ensures p in filters {
      assert p in FACETS;
      ghost var k :| 0 <= k < |FACETS| && FACETS[k] == p;
    }
  }

  lemma AllFacets()
    ensures forall p: Param :: p in FACETS
  {
    forall p: Param ensures p in FACETS {
      match p
      case Condition => assert FACETS[0] == p;
      case Drivetrain => assert FACETS[1] == p;
      case Trim => assert FACETS[2] == p;
    }
  }

  function ParamOf(filters: Filters, p: Param): Query {
    if p in filters then [(NameOf(p), filters[p])] else []
  }

  function PageParam(page: int): Query {
    if page > 1 then [("page", Decimal(page))] else []
  }

  /** The parameters of a results link, before encoding. */
  function LinkQuery(filters: Filters, page: int): Query {
    ParamOf(filters, Condition) + ParamOf(filters, Drivetrain) + ParamOf(filters, Trim) + PageParam(page)
  }

  /** The loop that sets them. */
  method ResultsHref(filters: Filters, page: int) returns (query: Query)
    ensures query == LinkQuery(filters, page)
  {
    query := [];
    for i := 0 to |FACETS|
      invariant i == 0 ==> query == []
      invariant i == 1 ==> query == ParamOf(filters, Condition)
      invariant i == 2 ==> query == ParamOf(filters, Condition) + ParamOf(filters, Drivetrain)
      invariant i == 3 ==> query == ParamOf(filters, Condition) + ParamOf(filters, Drivetrain) + ParamOf(filters, Trim)
    {
      query := query + ParamOf(filters, FACETS[i]);
    }
    query := query + PageParam(page);
  }

  lemma {:induction false} GetOfConcat(a: Query, b: Query, name: string)
    ensures Get(a + b, name) == if Get(a, name).Some? then Get(a, name) else Get(b, name)
  {
    if a == [] {
      assert a + b == b;
    } else {
      GetOfConcat(a[1..], b, name);
      assert (a + b)[1..] == a[1..] + b;
    }
  }

  lemma GetFromLink(filters: Filters, page: int, p: Param)
    ensures Get(LinkQuery(filters, page), NameOf(p)) == if p in filters then Some(filters[p]) else None
  {
    var a, b, c, d := ParamOf(filters, Condition), ParamOf(filters, Drivetrain), ParamOf(filters, Trim), PageParam(page);
    GetOfConcat(a + b + c, d, NameOf(p));
    GetOfConcat(a + b, c, NameOf(p));
    GetOfConcat(a, b, NameOf(p));
    DistinctNames();
    assert Get(d, NameOf(p)).None?;
  }

  lemma DistinctNames()
    ensures forall p, q: Param :: NameOf(p) == NameOf(q) ==> p == q
    ensures forall p: Param :: NameOf(p) != "page"
  {
    assert "condition"[0] == 'c' && "drivetrain"[0] == 'd' && "trim"[0] == 't' && "page"[0] == 'p';
  }

  /** Reading a link's own query gives its filters back, exactly when none of them is empty. */
  lemma LinkRoundTripIff(filters: Filters, page: int)
    ensures FiltersOf(LinkQuery(filters, page)) == filters <==> forall p | p in filters :: filters[p] != ""
  {
    forall p: Param ensures Get(LinkQuery(filters, page), NameOf(p)) == if p in filters then Some(filters[p]) else None {
      GetFromLink(filters, page, p);
    }
  }

  function LeadingDigits(s: string): string {
    if s == [] || !IsDigit(s[0]) then [] else [s[0]] + LeadingDigits(s[1..])
  }

  /** `Number.parseInt(text, 10)`: spaces, a sign, and as many digits as there are; none is no number. */
  function ParseInt(text: string): Option<int> {
    var signed := SkipSpaces(text);
    var unsigned := if signed != [] && (signed[0] == '-' || signed[0] == '+') then signed[1..] else signed;
    var digits := LeadingDigits(unsigned);
    LeadingDigitsAreDigits(unsigned);
    if digits == [] then None
    else Some(if signed[0] == '-' then -(ValueOf(digits) as int) else ValueOf(digits) as int)
  }

  lemma {:induction false} LeadingDigitsAreDigits(s: string)
    ensures AllDigits(LeadingDigits(s)) && LeadingDigits(s) <= s
    ensures LeadingDigits(s) != [] ==> IsDigit(s[0])
    ensures |LeadingDigits(s)| < |s| ==> !IsDigit(s[|LeadingDigits(s)|])
  {
    if s != [] { LeadingDigitsAreDigits(s[1..]); }
  }

  /** The digits are all that `s` starts with. */
  lemma {:induction false} DigitsLead(digits: string, tail: string)
    requires AllDigits(digits) && (tail != [] ==> !IsDigit(tail[0]))
    ensures LeadingDigits(digits + tail) == digits
  {
    if digits == [] {
      assert digits + tail == tail;
    } else {
      DigitsLead(digits[1..], tail);
      assert (digits + tail)[1..] == digits[1..] + tail;
    }
  }

  lemma {:induction false} SpacesAreSkipped(spaces: string, s: string)
    requires forall i | 0 <= i < |spaces| :: IsSpace(spaces[i])
    requires s != [] ==> !IsSpace(s[0])
    ensures SkipSpaces(spaces + s) == s
  {
    if spaces == [] {
      assert spaces + s == s;
    } else {
      SpacesAreSkipped(spaces[1..], s);
      assert (spaces + s)[1..] == spaces[1..] + s;
    }
  }

  datatype Sign = Unsigned | Plus | Minus

  function Written(sign: Sign): string {
    match sign case Unsigned => "" case Plus => "+" case Minus => "-"
  }

  /** How a text reads as a number. */
  ghost predicate ReadsAs(text: string, spaces: string, sign: Sign, digits: string, tail: string) {
    && text == spaces + (Written(sign) + (digits + tail))
    && (forall i | 0 <= i < |spaces| :: IsSpace(spaces[i]))
    && digits != [] && AllDigits(digits)
    && (tail != [] ==> !IsDigit(tail[0]))
  }

  /** White space, a sign and a run of digits stand for a number, whatever follows. */
  lemma ParseIntReads(text: string, spaces: string, sign: Sign, digits: string, tail: string)
    requires ReadsAs(text, spaces, sign, digits, tail)
    ensures ParseInt(text) == Some(if sign.Minus? then -(ValueOf(digits) as int) else ValueOf(digits) as int)
  {
    var signed := Written(sign) + (digits + tail);
    assert signed[0] == if sign.Unsigned? then digits[0] else Written(sign)[0];
    SpacesAreSkipped(spaces, signed);
    assert signed[|Written(sign)|..] == digits + tail;
    DigitsLead(digits, tail);
  }

  /** Nothing else is a number. */
  lemma ParseIntHasRead(text: string) returns (spaces: string, sign: Sign, digits: string, tail: string)
    ensures ParseInt(text).Some? ==> ReadsAs(text, spaces, sign, digits, tail)
  {
    SkipIsSuffix(text);
    var signed := SkipSpaces(text);
    spaces := text[..|text| - |signed|];
    sign := SignOf(signed);
    var unsigned := signed[|Written(sign)|..];
    LeadingDigitsAreDigits(unsigned);
    digits := LeadingDigits(unsigned);
    tail := unsigned[|digits|..];
    assert unsigned == digits + tail;
    Reassemble(text, spaces, signed, Written(sign), unsigned);
  }

  lemma Reassemble(text: string, spaces: string, signed: string, sign: string, unsigned: string)
    requires spaces <= text && signed == text[|spaces|..]
    requires sign <= signed && unsigned == signed[|sign|..]
    ensures text == spaces + (sign + unsigned)
  {
  }

  function SignOf(s: string): (sign: Sign)
    ensures Written(sign) <= s
  {
    if s == [] then Unsigned else if s[0] == '-' then Minus else if s[0] == '+' then Plus else Unsigned
  }

  /** A page number written into a link is the number parsed from it. */
  lemma NumeralParses(n: nat)
    ensures ParseInt(Decimal(n)) == Some(n)
  {
    DecimalReads(n);
    ParseIntReads(Decimal(n), [], Unsigned, Decimal(n), []);
  }

  // ----- Facet counts -----

  predicate Matches(item: Item, filters: Filters) {
    forall p | p in filters :: Lower(FieldOf(item, p)) == Lower(filters[p])
  }

  /** The items a results page with these filters lists, in inventory order. */
  function Matching(items: seq<Item>, filters: Filters): seq<Item> {
    if items == [] then []
    else Matching(items[..|items| - 1], filters)
         + if Matches(items[|items| - 1], filters) then [items[|items| - 1]] else []
  }

  /** What a filter asks of an item, field by field; the parameters carry the fields' own names. */
  lemma MatchesIff(item: Item, filters: Filters)
    ensures Matches(item, filters) <==>
            && (Condition in filters ==> Lower(item.condition) == Lower(filters[Condition]))
            && (Drivetrain in filters ==> Lower(item.drivetrain) == Lower(filters[Drivetrain]))
            && (Trim in filters ==> Lower(item.trim) == Lower(filters[Trim]))
    ensures NameOf(Condition) == "condition" && NameOf(Drivetrain) == "drivetrain" && NameOf(Trim) == "trim"
  {
  }

  /** Listing is item by item and keeps the order. */
  lemma {:induction false} MatchingOfConcat(a: seq<Item>, b: seq<Item>, filters: Filters)
    ensures Matching(a + b, filters) == Matching(a, filters) + Matching(b, filters)
  {
    if b == [] {
      assert a + b == a;
    } else {
      var init, last := b[..|b| - 1], b[|b| - 1];
      MatchingOfConcat(a, init, filters);
      MatchingOfOneMore(a + init, last, filters);
      MatchingOfOneMore(init, last, filters);
      assert b == init + [last];
      hide *;
      var shown := if Matches(last, filters) then [last] else [];
      Regroup(a, init, [last]);
      Regroup(Matching(a, filters), Matching(init, filters), shown);
    }
  }

  lemma MatchingOfOneMore(items: seq<Item>, item: Item, filters: Filters)
    ensures Matching(items + [item], filters) == Matching(items, filters) + if Matches(item, filters) then [item] else []
  {
    assert (items + [item])[..|items|] == items;
  }

  /** The number shown beside a facet value: it compares the facet's own field exactly. */
  function FacetCount(items: seq<Item>, others: Filters, p: Param, value: string): nat {
    if items == [] then 0
    else
      var last := items[|items| - 1];
      FacetCount(items[..|items| - 1], others, p, value)
        + if Matches(last, others) && FieldOf(last, p) == value then 1 else 0
  }

  /** An item that the link would list although its value is not the facet's, only alike but for case. */
  predicate Misspelt(item: Item, others: Filters, p: Param, value: string) {
    Matches(item, others) && FieldOf(item, p) != value && Lower(FieldOf(item, p)) == Lower(value)
  }

  lemma MatchesOneMore(item: Item, others: Filters, p: Param, value: string)
    requires p !in others
    ensures Matches(item, others[p := value]) <==> Matches(item, others) && Lower(FieldOf(item, p)) == Lower(value)
  {
    var filters := others[p := value];
    assert filters[p] == value;
    assert forall q | q in others :: q in filters && filters[q] == others[q];
  }

  lemma {:induction false} CountAgainstTotal(items: seq<Item>, others: Filters, p: Param, value: string)
    requires p !in others
    ensures FacetCount(items, others, p, value) <= |Matching(items, others[p := value])|
    ensures FacetCount(items, others, p, value) == |Matching(items, others[p := value])|
        <==> forall i | 0 <= i < |items| :: !Misspelt(items[i], others, p, value)
  {
    if items != [] {
      var init, last := items[..|items| - 1], items[|items| - 1];
      CountAgainstTotal(init, others, p, value);
      MatchesOneMore(last, others, p, value);
      assert (forall i | 0 <= i < |items| :: !Misspelt(items[i], others, p, value))
        <==> !Misspelt(last, others, p, value) && forall i | 0 <= i < |init| :: !Misspelt(init[i], others, p, value);
    }
  }

  /** A facet's count is the total that the page behind its link reports, exactly when no item that
      matches the other filters has a value differing from the facet's in case alone. */
  lemma CountIsHonestIff(items: seq<Item>, filters: Filters, p: Param, value: string)
    requires value != "" && forall q | q in filters :: filters[q] != ""
    ensures var others := filters - {p};
            FacetCount(items, others, p, value)
              == |Matching(items, FiltersOf(LinkQuery(others[p := value], 1)))|
            <==> forall i | 0 <= i < |items| :: !Misspelt(items[i], others, p, value)
  {
    var others := filters - {p};
    LinkRoundTripIff(others[p := value], 1);
    CountAgainstTotal(items, others, p, value);
  }

  // ----- Pages -----

  function Min(a: int, b: int): int { if a < b then a else b }
  function Max(a: int, b: int): int { if a < b then b else a }

  /** `slice(start, end)` with non-negative bounds. */
  function Slice<T>(s: seq<T>, start: nat, end: nat): seq<T> {
    var from, to := Min(start, |s|), Min(end, |s|);
    if from < to then s[from..to] else []
  }

  function PageCount(total: nat): nat {
    Max(1, (total + PAGE_SIZE - 1) / PAGE_SIZE)
  }

  /** The page shown for a requested one; no number at all means the first. */
  function PageFor(requested: Option<int>, total: nat): (page: int)
    ensures 1 <= page <= PageCount(total)
  {
    if requested.Some? then Min(Max(requested.value, 1), PageCount(total)) else 1
  }

  /** It is the page nearest to the requested one. */
  lemma PageForIsNearest(requested: int, total: nat, other: int)
    requires 1 <= other <= PageCount(total) && other != PageFor(Some(requested), total)
    ensures Distance(PageFor(Some(requested), total), requested) < Distance(other, requested)
    ensures PageFor(None, total) == 1
  {
  }

  function Distance(a: int, b: int): int { Max(a - b, b - a) }

  function PageItems<T>(matching: seq<T>, page: nat): seq<T>
    requires page >= 1
  {
    Slice(matching, (page - 1) * PAGE_SIZE, page * PAGE_SIZE)
  }

  /** The page that a query asks for. */
  function RequestedPage(query: Query): Option<int> {
    match Get(query, "page")
    case None => Some(1)
    case Some(text) => ParseInt(text)
  }

  /** A pagination link leads to its page: same filters, same number. */
  lemma PageLinkLeadsThere(filters: Filters, page: nat, total: nat)
    requires 1 <= page <= PageCount(total) && forall p | p in filters :: filters[p] != ""
    ensures FiltersOf(LinkQuery(filters, page)) == filters
    ensures PageFor(RequestedPage(LinkQuery(filters, page)), total) == page
    ensures Get(LinkQuery(filters, page), "page") == if page == 1 then None else Some(Decimal(page))
  {
    LinkRoundTripIff(filters, page);
    var a, b, c, d := ParamOf(filters, Condition), ParamOf(filters, Drivetrain), ParamOf(filters, Trim), PageParam(page);
    GetOfConcat(a + b + c, d, "page");
    GetOfConcat(a + b, c, "page");
    GetOfConcat(a, b, "page");
    DistinctNames();
    NumeralParses(page);
  }

  /** One entry of the page navigation; `page` is the page it names, `query` where it leads. */
  datatype Entry = Previous(query: Query) | Here(page: nat) | Link(page: nat, query: Query) | Next(query: Query)

  /** `pagination`: nothing for a single page; otherwise every page by its number, the current one
      without a link, between the neighbours there are. */
  method Pagination(filters: Filters, page: nat, pageCount: nat) returns (links: seq<Entry>)
    requires 1 <= page <= pageCount
    ensures links ==
            if pageCount == 1 then []
            else (if page > 1 then [Previous(LinkQuery(filters, page - 1))] else [])
                 + Numbers(filters, page, pageCount)
                 + (if page < pageCount then [Next(LinkQuery(filters, page + 1))] else [])
  {
    hide LinkQuery;
    links := [];
    if pageCount <= 1 { return; }
    if page > 1 { links := [Previous(LinkQuery(filters, page - 1))]; }
    ghost var head := links;
    for number: nat := 1 to pageCount + 1
      invariant links == head + Numbers(filters, page, number - 1)
    {
      var entry := if number == page then Here(number) else Link(number, LinkQuery(filters, number));
      links := links + [entry];
      Regroup(head, Numbers(filters, page, number - 1), [entry]);
    }
    if page < pageCount { links := links + [Next(LinkQuery(filters, page + 1))]; }
  }

  lemma Regroup<T>(a: seq<T>, b: seq<T>, c: seq<T>)
    ensures a + b + c == a + (b + c)
  {
  }

  function Numbers(filters: Filters, page: nat, n: nat): seq<Entry> {
    if n == 0 then []
    else Numbers(filters, page, n - 1) + [if n == page then Here(n) else Link(n, LinkQuery(filters, n))]
  }

  /** Entry `k` of the numbers is page `k + 1`, so every page is one link away from every other. */
  lemma {:induction false} NumberAt(filters: Filters, page: nat, n: nat, k: nat)
    requires k < n
    ensures |Numbers(filters, page, n)| == n
    ensures Numbers(filters, page, n)[k] == if k + 1 == page then Here(page) else Link(k + 1, LinkQuery(filters, k + 1))
  {
    if n > 1 { NumberAt(filters, page, n - 1, if k < n - 1 then k else 0); }
  }

  /** The pages one after the other. */
  function FirstPages<T>(matching: seq<T>, pages: nat): seq<T> {
    if pages == 0 then [] else FirstPages(matching, pages - 1) + PageItems(matching, pages)
  }

  lemma {:induction false} FirstPagesArePrefix<T>(matching: seq<T>, pages: nat)
    ensures FirstPages(matching, pages) == matching[..Min(pages * PAGE_SIZE, |matching|)]
  {
    if pages > 0 {
      FirstPagesArePrefix(matching, pages - 1);
    }
  }

  /** The pages of a list, put together, are the list; no page is larger than it may be, and only the
      last can be short. */
  lemma PagesPartition<T>(matching: seq<T>)
    ensures FirstPages(matching, PageCount(|matching|)) == matching
    ensures forall page | 1 <= page < PageCount(|matching|) :: |PageItems(matching, page)| == PAGE_SIZE
    ensures |PageItems(matching, PageCount(|matching|))| <= PAGE_SIZE
    ensures matching != [] ==> PageItems(matching, PageCount(|matching|)) != []
  {
    var n := PageCount(|matching|);
    FirstPagesArePrefix(matching, n);
    assert matching[..|matching|] == matching;
  }

  /** The client-rendered fixture's pager: a loop that pushes slices. */
  method Pages<T>(items: seq<T>) returns (out: seq<seq<T>>)
    ensures |out| == (|items| + PAGE_SIZE - 1) / PAGE_SIZE
    ensures forall i | 0 <= i < |out| :: out[i] == PageItems(items, i + 1)
  {
    out := [];
    var start := 0;
    while start < |items|
      invariant start == |out| * PAGE_SIZE
      invariant |out| <= (|items| + PAGE_SIZE - 1) / PAGE_SIZE
      invariant forall i | 0 <= i < |out| :: out[i] == PageItems(items, i + 1)
    {
      out := out + [Slice(items, start, start + PAGE_SIZE)];
      start := start + PAGE_SIZE;
    }
  }

  function IndexOf(items: seq<Item>, id: string): Option<nat> {
    if items == [] then None
    else if items[0].id == id then Some(0)
    else match IndexOf(items[1..], id) case None => None case Some(i) => Some(i + 1)
  }

  /** The page that shows an item when nothing is filtered; unknown ids are an error. */
  function ListingPageOf(items: seq<Item>, id: string): Option<nat> {
    match IndexOf(items, id)
    case None => None
    case Some(index) => Some(index / PAGE_SIZE + 1)
  }

  lemma {:induction false} IndexOfIsFirst(items: seq<Item>, id: string)
    ensures match IndexOf(items, id)
            case None => forall i | 0 <= i < |items| :: items[i].id != id
            case Some(k) => k < |items| && items[k].id == id && forall i | 0 <= i < k :: items[i].id != id
  {
    if items != [] { IndexOfIsFirst(items[1..], id); }
  }

  lemma {:induction false} NoFilterMatchesAll(items: seq<Item>)
    ensures Matching(items, map[]) == items
  {
    if items != [] {
      NoFilterMatchesAll(items[..|items| - 1]);
      assert items == items[..|items| - 1] + [items[|items| - 1]];
    }
  }

  ghost predicate DistinctIds(items: seq<Item>) {
    forall i, j | 0 <= i < j < |items| :: items[i].id != items[j].id
  }

  /** With distinct ids, `ListingPageOf` names the one page of the unfiltered listing that shows an item. */
  lemma ListingPageIsTheOne(items: seq<Item>, k: nat, page: nat)
    requires DistinctIds(items) && k < |items| && page >= 1
    ensures items[k] in PageItems(Matching(items, map[]), page) <==> ListingPageOf(items, items[k].id) == Some(page)
  {
    assert Matching(items, map[]) == items by { NoFilterMatchesAll(items); }
    IndexOfItem(items, k, page);
    ShownOnPage(items, k, page);
  }

  lemma IndexOfItem(items: seq<Item>, k: nat, page: nat)
    requires DistinctIds(items) && k < |items| && page >= 1
    ensures ListingPageOf(items, items[k].id) == Some(page) <==> (page - 1) * PAGE_SIZE <= k < page * PAGE_SIZE
  {
    IndexOfIsFirst(items, items[k].id);
    PageOfIndex(k, page);
  }

  lemma PageOfIndex(k: nat, page: nat)
    requires page >= 1
    ensures k / PAGE_SIZE + 1 == page <==> (page - 1) * PAGE_SIZE <= k < page * PAGE_SIZE
  {
  }

  lemma ShownOnPage(items: seq<Item>, k: nat, page: nat)
    requires DistinctIds(items) && k < |items| && page >= 1
    ensures items[k] in PageItems(items, page) <==> (page - 1) * PAGE_SIZE <= k < page * PAGE_SIZE
  {
    var from := (page - 1) * PAGE_SIZE;
    var shown := PageItems(items, page);
    assert forall i | 0 <= i < |shown| :: shown[i] == items[from + i];
    if from <= k < page * PAGE_SIZE { assert shown[k - from] == items[k]; }
  }
}
