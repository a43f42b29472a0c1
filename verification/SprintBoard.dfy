/** `scripts/gen_sprint_board.py`: grouping and sorting the issues, which of them the
    board shows, and what its date stamp must survive. */
module SprintBoard {
  import opened Wrappers

  datatype Issue = Issue(id: string, title: string, priority: string, status: string, parent: Option<string>,
      url: string)

  const PRIORITY_ORDER := ["Urgent", "High", "Medium", "Low"]

  // ----- Order ---------------------------------------------------------------------

  function RankFrom(priority: string, i: nat): (r: nat)
    requires i <= |PRIORITY_ORDER|
    decreases |PRIORITY_ORDER| - i
  {
    if i == |PRIORITY_ORDER| || PRIORITY_ORDER[i] == priority then i else RankFrom(priority, i + 1)
  }

  function Rank(priority: string): (r: nat) {
    RankFrom(priority, 0)
  }

  /** The known priorities in their order, and all others behind them. */
  lemma KnownRanks(priority: string)
    ensures Rank(priority) == if priority == "Urgent" then 0 else if priority == "High" then 1
                              else if priority == "Medium" then 2 else if priority == "Low" then 3 else 4
  {
    assert RankFrom(priority, 4) == 4;
    assert RankFrom(priority, 3) == if priority == "Low" then 3 else 4;
    assert RankFrom(priority, 2) == if priority == "Medium" then 2 else RankFrom(priority, 3);
    assert RankFrom(priority, 1) == if priority == "High" then 1 else RankFrom(priority, 2);
    assert RankFrom(priority, 0) == if priority == "Urgent" then 0 else RankFrom(priority, 1);
  }

  /** The order of Python strings: by code point. */
  predicate Leq(a: string, b: string) {
    a == "" || (b != "" && (a[0] < b[0] || (a[0] == b[0] && Leq(a[1..], b[1..]))))
  }

  predicate NotAfter(x: Issue, y: Issue) {
    Rank(x.priority) < Rank(y.priority) || (Rank(x.priority) == Rank(y.priority) && Leq(x.id, y.id))
  }

  lemma {:induction false} LeqTotal(a: string, b: string)
    ensures Leq(a, b) || Leq(b, a)
    ensures Leq(a, b) && Leq(b, a) ==> a == b
    decreases |a|
  {
    if a != "" && b != "" && a[0] == b[0] {
      LeqTotal(a[1..], b[1..]);
      assert a == [a[0]] + a[1..] && b == [b[0]] + b[1..];
    }
  }

  lemma {:induction false} LeqTransitive(a: string, b: string, c: string)
    requires Leq(a, b) && Leq(b, c)
    ensures Leq(a, c)
    decreases |a|
  {
    if a != "" && a[0] == b[0] && b[0] == c[0] {
      LeqTransitive(a[1..], b[1..], c[1..]);
    }
  }

  function Insert(x: Issue, s: seq<Issue>): (r: seq<Issue>) {
    if s == [] || NotAfter(x, s[0]) then [x] + s else [s[0]] + Insert(x, s[1..])
  }

  /** `list.sort` by priority rank, then id; stable. */
  function Sort(s: seq<Issue>): (r: seq<Issue>) {
    if s == [] then [] else Insert(s[0], Sort(s[1..]))
  }

  predicate Sorted(s: seq<Issue>) {
    forall i, j | 0 <= i < j < |s| :: NotAfter(s[i], s[j])
  }

  lemma {:induction false} InsertSorts(x: Issue, s: seq<Issue>)
    requires Sorted(s)
    ensures Sorted(Insert(x, s)) && multiset(Insert(x, s)) == multiset(s) + multiset{x}
  {
    hide Rank;
    if s == [] {
    } else if NotAfter(x, s[0]) {
      forall j | 0 <= j < |s| ensures NotAfter(x, s[j]) {
        if Rank(x.priority) == Rank(s[0].priority) == Rank(s[j].priority) && j > 0 {
          LeqTransitive(x.id, s[0].id, s[j].id);
        }
      }
    } else {
      var r := Insert(x, s[1..]);
      InsertSorts(x, s[1..]);
      LeqTotal(x.id, s[0].id);
      assert s == [s[0]] + s[1..];
      forall j | 0 <= j < |r| ensures NotAfter(s[0], r[j]) {
        assert r[j] in multiset(r);
        if r[j] != x {
          var k :| 0 <= k < |s[1..]| && s[1..][k] == r[j];
          assert NotAfter(s[0], s[k + 1]);
        }
      }
    }
  }

  lemma {:induction false} SortSorts(s: seq<Issue>)
    ensures Sorted(Sort(s)) && multiset(Sort(s)) == multiset(s)
  {
    if s != [] {
      SortSorts(s[1..]);
      InsertSorts(s[0], Sort(s[1..]));
      assert s == [s[0]] + s[1..];
    }
  }

  // ----- Grouping --------------------------------------------------------------------

  predicate HasId(issues: seq<Issue>, id: string) {
    exists i | 0 <= i < |issues| :: issues[i].id == id
  }

  /** A child: its parent, not the empty id, is among the issues. */
  predicate IsChild(all: seq<Issue>, x: Issue) {
    x.parent.Some? && x.parent.value != "" && HasId(all, x.parent.value)
  }

  function TopOf(all: seq<Issue>, issues: seq<Issue>): (r: seq<Issue>) {
    if issues == [] then []
    else TopOf(all, issues[..|issues| - 1]) + if IsChild(all, issues[|issues| - 1]) then [] else [issues[|issues| - 1]]
  }

  function KidsOf(all: seq<Issue>, issues: seq<Issue>, id: string): (r: seq<Issue>) {
    if issues == [] then []
    else
      var x := issues[|issues| - 1];
      KidsOf(all, issues[..|issues| - 1], id) + if IsChild(all, x) && x.parent.value == id then [x] else []
  }

  /** The map holds, per parent, what has been found of its children. */
  ghost predicate Found(children: map<string, seq<Issue>>, all: seq<Issue>, issues: seq<Issue>) {
    forall id :: (id in children <==> KidsOf(all, issues, id) != [])
                 && (id in children ==> children[id] == KidsOf(all, issues, id))
  }

  /** The same, each list sorted. */
  ghost predicate Grouped(children: map<string, seq<Issue>>, all: seq<Issue>) {
    forall id :: (id in children <==> KidsOf(all, all, id) != [])
                 && (id in children ==> children[id] == Sort(KidsOf(all, all, id)))
  }

  lemma KidsNext(all: seq<Issue>, i: nat, id: string)
    requires i < |all|
    ensures KidsOf(all, all[..i + 1], id) ==
              KidsOf(all, all[..i], id) + if IsChild(all, all[i]) && all[i].parent.value == id then [all[i]] else []
  {
    assert all[..i + 1][..i] == all[..i];
  }

  lemma TopNext(all: seq<Issue>, i: nat)
    requires i < |all|
    ensures TopOf(all, all[..i + 1]) == TopOf(all, all[..i]) + if IsChild(all, all[i]) then [] else [all[i]]
  {
    assert all[..i + 1][..i] == all[..i];
  }

  lemma FoundNext(children: map<string, seq<Issue>>, all: seq<Issue>, i: nat)
    requires i < |all| && Found(children, all, all[..i])
    ensures var x := all[i];
      if IsChild(all, x) then
        var p := x.parent.value;
        Found(children[p := (if p in children then children[p] else []) + [x]], all, all[..i + 1])
      else Found(children, all, all[..i + 1])
  {
    forall id
      ensures KidsOf(all, all[..i + 1], id) ==
                KidsOf(all, all[..i], id) + if IsChild(all, all[i]) && all[i].parent.value == id then [all[i]] else []
    {
      KidsNext(all, i, id);
    }
    hide KidsOf, IsChild;
  }

  lemma NothingFound(all: seq<Issue>)
    ensures TopOf(all, []) == [] && Found(map[], all, [])
  {
  }

  lemma FoundSorted(found: map<string, seq<Issue>>, children: map<string, seq<Issue>>, all: seq<Issue>)
    requires Found(found, all, all)
    requires children.Keys == found.Keys && forall id | id in found :: children[id] == Sort(found[id])
    ensures Grouped(children, all)
  {
    hide KidsOf, Sort;
    assert forall id :: id in children <==> id in found;
  }

  /** `_group_by_parent`. */
  method GroupByParent(issues: seq<Issue>) returns (top: seq<Issue>, children: map<string, seq<Issue>>)
    ensures top == Sort(TopOf(issues, issues))
    ensures Grouped(children, issues)
  {
    NothingFound(issues);
    assert issues[..0] == [] && issues[..|issues|] == issues;
    hide *;
    top, children := [], map[];
    for i := 0 to |issues|
      invariant top == TopOf(issues, issues[..i])
      invariant Found(children, issues, issues[..i])
    {
      var x := issues[i];
      TopNext(issues, i);
      FoundNext(children, issues, i);
      if IsChild(issues, x) {
        var p := ParentOf(issues, x);
        children := children[p := (if p in children then children[p] else []) + [x]];
      } else {
        top := top + [x];
      }
    }
    top := Sort(top);
    ghost var found := children;
    children := SortEach(children);
    FoundSorted(found, children, issues);
  }

  /** The last loop of `_group_by_parent`. */
  method SortEach(found: map<string, seq<Issue>>) returns (children: map<string, seq<Issue>>)
    ensures children.Keys == found.Keys && forall id | id in found :: children[id] == Sort(found[id])
  {
    hide Sort;
    children := found;
    var unsorted := children.Keys;
    while unsorted != {}
      invariant unsorted <= found.Keys == children.Keys
      invariant forall id | id in found :: children[id] == if id in unsorted then found[id] else Sort(found[id])
    {
      var id :| id in unsorted;
      children := children[id := Sort(children[id])];
      unsorted := unsorted - {id};
    }
  }

  function ParentOf(all: seq<Issue>, x: Issue): (p: string)
    requires IsChild(all, x)
    ensures x.parent == Some(p)
  {
    x.parent.value
  }

  // ----- The board ------------------------------------------------------------------------

  datatype Line = Heading(priority: string) | Item(issue: Issue, nested: bool) | Blank

  function Nested(kids: seq<Issue>): (r: seq<Line>) {
    if kids == [] then [] else Nested(kids[..|kids| - 1]) + [Item(kids[|kids| - 1], true)]
  }

  /** One top-level issue with its children, under a new heading or not. */
  function Block(heading: bool, x: Issue, kids: seq<Issue>): (r: seq<Line>) {
    (if heading then [Heading(x.priority), Blank] else []) + [Item(x, false)] + Nested(kids) + [Blank]
  }

  /** A heading comes before an item whose priority is not the one before it. */
  function Sections(top: seq<Issue>, all: seq<Issue>): (r: seq<Line>) {
    if top == [] then []
    else
      var n := |top| - 1;
      Sections(top[..n], all)
      + Block(n == 0 || top[n - 1].priority != top[n].priority, top[n], Sort(KidsOf(all, all, top[n].id)))
  }

  lemma SectionsNext(top: seq<Issue>, all: seq<Issue>, i: nat)
    requires i < |top|
    ensures Sections(top[..i + 1], all) ==
              Sections(top[..i], all)
              + Block(i == 0 || top[i - 1].priority != top[i].priority, top[i], Sort(KidsOf(all, all, top[i].id)))
  {
    assert top[..i + 1][..i] == top[..i];
  }

  lemma SectionsBounds(top: seq<Issue>, all: seq<Issue>)
    ensures Sections(top[..0], all) == [] && Sections(top[..|top|], all) == Sections(top, all)
  {
    assert top[..0] == [] && top[..|top|] == top;
  }

  /** `_render_priority_sections`: what one turn of the loop appends. */
  method RenderBlock(heading: bool, x: Issue, kids: seq<Issue>) returns (lines: seq<Line>)
    ensures lines == Block(heading, x, kids)
  {
    lines := if heading then [Heading(x.priority), Blank] else [];
    lines := lines + [Item(x, false)];
    ghost var before := lines;
    for j := 0 to |kids|
      invariant lines == before + Nested(kids[..j])
    {
      assert kids[..j + 1][..j] == kids[..j];
      lines := lines + [Item(kids[j], true)];
    }
    assert kids[..|kids|] == kids;
    lines := lines + [Blank];
  }

  method RenderPrioritySections(top: seq<Issue>, children: map<string, seq<Issue>>, ghost all: seq<Issue>)
    returns (lines: seq<Line>)
    requires Grouped(children, all)
    ensures lines == Sections(top, all)
  {
    SectionsBounds(top, all);
    hide *;
    lines := [];
    var current: Option<string> := None;
    for i := 0 to |top|
      invariant lines == Sections(top[..i], all)
      invariant current == if i == 0 then None else Some(top[i - 1].priority)
    {
      var x := top[i];
      var heading := current != Some(x.priority);
      if heading {
        current := Some(x.priority);
      }
      var kids := if x.id in children then children[x.id] else [];
      var block := RenderBlock(heading, x, kids);
      NextBlock(top, children, all, i, heading, block);
      lines := lines + block;
    }
  }

  lemma NextBlock(top: seq<Issue>, children: map<string, seq<Issue>>, all: seq<Issue>, i: nat, heading: bool,
    block: seq<Line>)
    requires i < |top| && Grouped(children, all)
    requires heading == (i == 0 || top[i - 1].priority != top[i].priority)
    requires block == Block(heading, top[i], if top[i].id in children then children[top[i].id] else [])
    ensures Sections(top[..i + 1], all) == Sections(top[..i], all) + block
  {
    SectionsNext(top, all, i);
    KidsListed(children, all, top[i].id);
    hide *;
  }

  lemma KidsListed(children: map<string, seq<Issue>>, all: seq<Issue>, id: string)
    requires Grouped(children, all)
    ensures (if id in children then children[id] else []) == Sort(KidsOf(all, all, id))
  {
    hide KidsOf;
    SortNothing([]);
  }

  lemma SortNothing(s: seq<Issue>)
    requires s == []
    ensures Sort(s) == s
  {
  }

  // ----- Headings ---------------------------------------------------------------------------

  function Headings(lines: seq<Line>): (r: seq<string>) {
    if lines == [] then []
    else Headings(lines[..|lines| - 1]) + if lines[|lines| - 1].Heading? then [lines[|lines| - 1].priority] else []
  }

  lemma {:induction false} HeadingsConcat(a: seq<Line>, b: seq<Line>)
    ensures Headings(a + b) == Headings(a) + Headings(b)
    decreases |b|
  {
    if b == [] {
      assert a + b == a;
    } else {
      assert (a + b)[..|a + b| - 1] == a + b[..|b| - 1];
      HeadingsConcat(a, b[..|b| - 1]);
    }
  }

  lemma {:induction false} NoHeadings(lines: seq<Line>)
    requires forall i | 0 <= i < |lines| :: !lines[i].Heading?
    ensures Headings(lines) == []
    decreases |lines|
  {
    if lines != [] {
      NoHeadings(lines[..|lines| - 1]);
    }
  }

  lemma {:induction false} NestedItems(kids: seq<Issue>)
    ensures forall i | 0 <= i < |Nested(kids)| :: Nested(kids)[i].Item?
    decreases |kids|
  {
    if kids != [] {
      NestedItems(kids[..|kids| - 1]);
    }
  }

  lemma BlockHeadings(heading: bool, x: Issue, kids: seq<Issue>)
    ensures Headings(Block(heading, x, kids)) == if heading then [x.priority] else []
  {
    NestedItems(kids);
    hide Headings, Nested;
    var body := [Item(x, false)] + Nested(kids) + [Blank];
    NoHeadings(body);
    NoHeadings([Blank]);
    if heading {
      HeadingIs(x.priority);
      HeadingsConcat([Heading(x.priority)], [Blank]);
      HeadingsConcat([Heading(x.priority)] + [Blank], body);
      assert Block(heading, x, kids) == [Heading(x.priority)] + [Blank] + body;
    } else {
      assert Block(heading, x, kids) == body;
    }
  }

  lemma HeadingIs(priority: string)
    ensures Headings([Heading(priority)]) == [priority]
  {
    assert [Heading(priority)][..0] == [];
  }

  /** Ranks tell the known priorities apart. */
  lemma KnownRanksDiffer(p: string, q: string)
    requires Rank(p) == Rank(q) < |PRIORITY_ORDER|
    ensures p == q
  {
    RankIs(p, 0);
    RankIs(q, 0);
  }

  lemma {:induction false} RankIs(p: string, i: nat)
    requires i <= |PRIORITY_ORDER|
    ensures i <= RankFrom(p, i) <= |PRIORITY_ORDER|
    ensures RankFrom(p, i) < |PRIORITY_ORDER| ==> PRIORITY_ORDER[RankFrom(p, i)] == p
    decreases |PRIORITY_ORDER| - i
  {
    if i < |PRIORITY_ORDER| && PRIORITY_ORDER[i] != p {
      RankIs(p, i + 1);
    }
  }

  /** Below sorted issues the headings go up in rank: every known priority has at most
      one, and after them come those of unknown priorities. The last heading is always
      the priority of the last top-level issue. */
  lemma {:induction false} HeadingsAscend(top: seq<Issue>, all: seq<Issue>)
    requires Sorted(top)
    ensures var hs := Headings(Sections(top, all));
      && (forall i, j | 0 <= i < j < |hs| ::
            Rank(hs[i]) < Rank(hs[j]) || Rank(hs[i]) == Rank(hs[j]) == |PRIORITY_ORDER|)
      && (top != [] ==> hs != [] && hs[|hs| - 1] == top[|top| - 1].priority)
    decreases |top|
  {
    hide Rank, Headings, Block, KidsOf, Sort;
    if top == [] {
      NoHeadings(Sections(top, all));
    } else {
      var n := |top| - 1;
      var heading := n == 0 || top[n - 1].priority != top[n].priority;
      var kids := Sort(KidsOf(all, all, top[n].id));
      var before := Headings(Sections(top[..n], all));
      HeadingsAscend(top[..n], all);
      HeadingsConcat(Sections(top[..n], all), Block(heading, top[n], kids));
      BlockHeadings(heading, top[n], kids);
      if n > 0 {
        assert NotAfter(top[n - 1], top[n]);
        RankBound(top[n].priority);
        if heading && Rank(top[n - 1].priority) == Rank(top[n].priority) < |PRIORITY_ORDER| {
          KnownRanksDiffer(top[n - 1].priority, top[n].priority);
        }
      } else {
        NoHeadings(Sections(top[..n], all));
      }
    }
  }

  lemma RankBound(p: string)
    ensures Rank(p) <= |PRIORITY_ORDER|
  {
    RankIs(p, 0);
  }

  // ----- Which issues are shown --------------------------------------------------------------

  function Shown(lines: seq<Line>): (r: seq<Issue>) {
    if lines == [] then []
    else Shown(lines[..|lines| - 1]) + if lines[|lines| - 1].Item? then [lines[|lines| - 1].issue] else []
  }

  function Board(issues: seq<Issue>): (r: seq<Line>) {
    Sections(Sort(TopOf(issues, issues)), issues)
  }

  ghost predicate DistinctIds(issues: seq<Issue>) {
    forall i, j | 0 <= i < j < |issues| :: issues[i].id != issues[j].id
  }

  /** The board reaches an issue if it is no child, or a child of one that is none. */
  predicate Reached(all: seq<Issue>, x: Issue) {
    IsChild(all, x) ==> exists i | 0 <= i < |all| :: Some(all[i].id) == x.parent && !IsChild(all, all[i])
  }

  lemma {:induction false} ShownConcat(a: seq<Line>, b: seq<Line>)
    ensures Shown(a + b) == Shown(a) + Shown(b)
    decreases |b|
  {
    if b == [] {
      assert a + b == a;
    } else {
      assert (a + b)[..|a + b| - 1] == a + b[..|b| - 1];
      ShownConcat(a, b[..|b| - 1]);
    }
  }

  lemma {:induction false} NestedShows(kids: seq<Issue>)
    ensures Shown(Nested(kids)) == kids
    decreases |kids|
  {
    if kids != [] {
      var n := |kids| - 1;
      NestedShows(kids[..n]);
      ShownConcat(Nested(kids[..n]), [Item(kids[n], true)]);
      assert [Item(kids[n], true)][..0] == [];
    }
  }

  lemma ShownOne(line: Line)
    ensures Shown([line]) == if line.Item? then [line.issue] else []
  {
    assert [line][..0] == [];
  }

  lemma BlockShows(heading: bool, x: Issue, kids: seq<Issue>)
    ensures Shown(Block(heading, x, kids)) == [x] + kids
  {
    hide Shown, Nested;
    var head := if heading then [Heading(x.priority), Blank] else [];
    ShownConcat(head + [Item(x, false)] + Nested(kids), [Blank]);
    ShownConcat(head + [Item(x, false)], Nested(kids));
    ShownConcat(head, [Item(x, false)]);
    NestedShows(kids);
    ShownOne(Blank);
    ShownOne(Item(x, false));
    if heading {
      ShownOne(Heading(x.priority));
      ShownConcat([Heading(x.priority)], [Blank]);
      assert head == [Heading(x.priority)] + [Blank];
    } else {
      ShownConcat(head, head);
      assert head + head == head;
    }
  }

  lemma {:induction false} CountKids(all: seq<Issue>, issues: seq<Issue>, id: string, x: Issue)
    ensures multiset(KidsOf(all, issues, id))[x] ==
              if IsChild(all, x) && x.parent.value == id then multiset(issues)[x] else 0
    decreases |issues|
  {
    hide IsChild;
    if issues != [] {
      var front, last := issues[..|issues| - 1], issues[|issues| - 1];
      CountKids(all, front, id, x);
      KidsSnoc(all, issues, id);
      hide KidsOf;
      CountSnoc(front, last, x);
      CountSnoc(KidsOf(all, front, id), last, x);
      assert issues == front + [last];
      assert KidsOf(all, front, id) + [] == KidsOf(all, front, id);
    }
  }

  lemma KidsSnoc(all: seq<Issue>, issues: seq<Issue>, id: string)
    requires issues != []
    ensures var x := issues[|issues| - 1];
      KidsOf(all, issues, id) ==
        KidsOf(all, issues[..|issues| - 1], id) + if IsChild(all, x) && x.parent.value == id then [x] else []
  {
  }

  lemma CountSnoc(s: seq<Issue>, y: Issue, x: Issue)
    ensures multiset(s + [y])[x] == multiset(s)[x] + if x == y then 1 else 0
  {
    assert multiset(s + [y]) == multiset(s) + multiset{y};
  }

  lemma {:induction false} CountTop(all: seq<Issue>, issues: seq<Issue>, x: Issue)
    ensures multiset(TopOf(all, issues))[x] == if IsChild(all, x) then 0 else multiset(issues)[x]
    decreases |issues|
  {
    hide IsChild;
    if issues != [] {
      CountTop(all, issues[..|issues| - 1], x);
      assert issues == issues[..|issues| - 1] + [issues[|issues| - 1]];
    }
  }

  /** Where an issue is listed, from ids and parents alone: under the parent it names, if
      that is the id of an issue, and otherwise at the top level. */
  lemma ListedIff(issues: seq<Issue>, x: Issue, id: string)
    ensures x in Sort(KidsOf(issues, issues, id)) <==>
              x in issues && x.parent == Some(id) && id != "" && exists y :: y in issues && y.id == id
    ensures x in Sort(TopOf(issues, issues)) <==>
              && x in issues
              && (x.parent == None || x.parent == Some("") || forall y | y in issues :: x.parent != Some(y.id))
  {
    SortSorts(KidsOf(issues, issues, id));
    SortSorts(TopOf(issues, issues));
    CountKids(issues, issues, id, x);
    CountTop(issues, issues, x);
    assert x in issues <==> multiset(issues)[x] > 0;
    assert x in Sort(KidsOf(issues, issues, id)) <==> multiset(Sort(KidsOf(issues, issues, id)))[x] > 0;
    assert x in Sort(TopOf(issues, issues)) <==> multiset(Sort(TopOf(issues, issues)))[x] > 0;
    hide Sort, KidsOf, TopOf;
    if i :| 0 <= i < |issues| && x.parent == Some(issues[i].id) {
      assert issues[i] in issues;
    }
    assert forall y | y in issues :: exists i | 0 <= i < |issues| :: issues[i] == y;
  }

  /** Grouping is a partition into sorted lists: an issue is as often in the top level and
      among its parent's children together as in the input, and in no other group. */
  lemma GroupsPartition(issues: seq<Issue>, x: Issue)
    ensures Sorted(Sort(TopOf(issues, issues))) && forall id :: Sorted(Sort(KidsOf(issues, issues, id)))
    ensures multiset(Sort(TopOf(issues, issues)))[x]
            + (if x.parent.Some? then multiset(Sort(KidsOf(issues, issues, x.parent.value)))[x] else 0)
                == multiset(issues)[x]
    ensures forall id | x.parent != Some(id) :: x !in Sort(KidsOf(issues, issues, id))
  {
    hide Sort, TopOf, KidsOf, Sorted;
    SortSorts(TopOf(issues, issues));
    CountTop(issues, issues, x);
    forall id
      ensures Sorted(Sort(KidsOf(issues, issues, id)))
      ensures multiset(Sort(KidsOf(issues, issues, id)))[x] ==
                if IsChild(issues, x) && x.parent.value == id then multiset(issues)[x] else 0
      ensures x in Sort(KidsOf(issues, issues, id)) ==> multiset(Sort(KidsOf(issues, issues, id)))[x] > 0
    {
      SortSorts(KidsOf(issues, issues, id));
      CountKids(issues, issues, id, x);
    }
  }

  /** How often one issue is shown below a list of top-level issues. */
  function WithId(top: seq<Issue>, id: string): (n: nat) {
    if top == [] then 0 else WithId(top[..|top| - 1], id) + if top[|top| - 1].id == id then 1 else 0
  }

  lemma {:induction false} CountedOnce(issues: seq<Issue>, x: Issue)
    requires DistinctIds(issues) && x in issues
    ensures multiset(issues)[x] == 1
    decreases |issues|
  {
    var front, last := issues[..|issues| - 1], issues[|issues| - 1];
    assert issues == front + [last];
    if x != last {
      CountedOnce(front, x);
    } else {
      assert x !in front;
    }
  }

  lemma SectionShows(top: seq<Issue>, all: seq<Issue>)
    requires top != []
    ensures var n := |top| - 1;
      Shown(Sections(top, all)) == Shown(Sections(top[..n], all)) + ([top[n]] + Sort(KidsOf(all, all, top[n].id)))
  {
    hide KidsOf, Block, Shown, Sort;
    var n := |top| - 1;
    var kids := Sort(KidsOf(all, all, top[n].id));
    var heading := n == 0 || top[n - 1].priority != top[n].priority;
    ShownConcat(Sections(top[..n], all), Block(heading, top[n], kids));
    BlockShows(heading, top[n], kids);
  }

  lemma {:induction false} CountShown(top: seq<Issue>, all: seq<Issue>, x: Issue)
    requires multiset(all)[x] == 1
    ensures multiset(Shown(Sections(top, all)))[x] ==
              multiset(top)[x] + if IsChild(all, x) then WithId(top, x.parent.value) else 0
    decreases |top|
  {
    hide IsChild, KidsOf, Shown, Sort, Sections;
    if top == [] {
      NothingShown(top, all);
    } else {
      var n := |top| - 1;
      var kids := KidsOf(all, all, top[n].id);
      CountShown(top[..n], all, x);
      SectionShows(top, all);
      SortSorts(kids);
      CountKids(all, all, top[n].id, x);
      assert top == top[..n] + [top[n]];
    }
  }

  lemma NothingShown(top: seq<Issue>, all: seq<Issue>)
    requires top == []
    ensures Shown(Sections(top, all)) == []
  {
  }

  lemma {:induction false} CountWithId(top: seq<Issue>, id: string)
    requires DistinctIds(top)
    ensures WithId(top, id) == if HasId(top, id) then 1 else 0
    decreases |top|
  {
    if top != [] {
      var n := |top| - 1;
      CountWithId(top[..n], id);
      if i :| 0 <= i < |top| && top[i].id == id {
        assert i < n ==> top[..n][i].id == id;
      }
      if HasId(top[..n], id) {
        var i :| 0 <= i < n && top[..n][i].id == id;
        assert top[i].id == id;
      }
    }
  }

  /** A part of a list with distinct ids has distinct ids, however it is ordered. */
  lemma DistinctPart(part: seq<Issue>, all: seq<Issue>)
    requires DistinctIds(all) && multiset(part) <= multiset(all)
    ensures DistinctIds(part)
  {
    forall i, j | 0 <= i < j < |part| ensures part[i].id != part[j].id {
      assert part[i] in multiset(part) && part[j] in multiset(part);
      CountedOnce(all, part[i]);
      TwiceIfEqual(part, i, j);
      SameIdSame(all, part[i], part[j]);
    }
  }

  lemma TwiceIfEqual(s: seq<Issue>, i: nat, j: nat)
    requires i < j < |s|
    ensures s[i] == s[j] ==> multiset(s)[s[i]] >= 2
  {
    assert s == s[..i] + [s[i]] + s[i + 1..j] + [s[j]] + s[j + 1..];
  }

  lemma SameIdSame(all: seq<Issue>, x: Issue, y: Issue)
    requires DistinctIds(all) && x in all && y in all
    ensures x.id == y.id ==> x == y
  {
  }

  /** An issue is shown once if the board reaches it, and otherwise not at all. */
  lemma ShownOnceIfReached(issues: seq<Issue>, x: Issue)
    requires DistinctIds(issues) && x in issues
    ensures multiset(Shown(Board(issues)))[x] == if Reached(issues, x) then 1 else 0
  {
    hide Sections, Shown, KidsOf, Insert, IsChild;
    var top := TopOf(issues, issues);
    CountedOnce(issues, x);
    SortSorts(top);
    CountTop(issues, issues, x);
    CountShown(Sort(top), issues, x);
    TopIsPart(issues);
    DistinctPart(Sort(top), issues);
    if IsChild(issues, x) {
      var p := ParentOf(issues, x);
      CountWithId(Sort(top), p);
      if i :| 0 <= i < |Sort(top)| && Sort(top)[i].id == p {
        var t := Sort(top)[i];
        assert t in multiset(Sort(top));
        CountTop(issues, issues, t);
        assert t in multiset(issues);
        var k :| 0 <= k < |issues| && issues[k] == t;
      }
      if k :| 0 <= k < |issues| && issues[k].id == p && !IsChild(issues, issues[k]) {
        CountTop(issues, issues, issues[k]);
        assert issues[k] in multiset(issues);
        assert issues[k] in multiset(Sort(top));
        var i :| 0 <= i < |Sort(top)| && Sort(top)[i] == issues[k];
      }
    }
  }

  lemma TopIsPart(issues: seq<Issue>)
    ensures multiset(TopOf(issues, issues)) <= multiset(issues)
  {
    forall x ensures multiset(TopOf(issues, issues))[x] <= multiset(issues)[x] {
      CountTop(issues, issues, x);
    }
  }

  /** Everything is on the board, once, exactly if no child has children. */
  lemma CompleteIff(issues: seq<Issue>)
    requires DistinctIds(issues)
    ensures (forall x | x in issues :: multiset(Shown(Board(issues)))[x] == 1)
            <==> forall x | x in issues && IsChild(issues, x) ::
                   exists i | 0 <= i < |issues| :: Some(issues[i].id) == x.parent && !IsChild(issues, issues[i])
  {
    hide Board, Shown, IsChild;
    forall x | x in issues ensures multiset(Shown(Board(issues)))[x] == if Reached(issues, x) then 1 else 0 {
      ShownOnceIfReached(issues, x);
    }
  }
}
