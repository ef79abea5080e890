/** The live feed ticker: a fixed table of company signals, cycled by an
    index, each rendering inserted at the top of a window of at most three
    visible items. */
module LiveFeed {

  /** One entry of the fixed table. */
  datatype Company = Company(name: string, signal: string, level: string, icon: string)

  /** What one .feed-item shows: icon, company, signal, and a badge whose
      CSS class is the level and whose text is the badge label. */
  datatype FeedItem = FeedItem(icon: string, company: string, signal: string,
                               badgeClass: string, badge: string)

  const Red := "\U{1F534}"
  const Orange := "\U{1F7E0}"
  const Green := "\U{1F7E2}"

  const Companies: seq<Company> := [
    Company("TechCorp", "Hiring ML engineers", "high", Red),
    Company("FinanceHub", "New blockchain patent filed", "high", Red),
    Company("DataFlow", "CTO change detected", "medium", Orange),
    Company("CloudBase", "AWS partnership announced", "low", Green),
    Company("AIStartup", "Product team rebranding", "medium", Orange),
    Company("SaaSGiant", "Mobile dev job postings", "high", Red),
    Company("RetailX", "Stripe integration detected", "low", Green),
    Company("MediaCorp", "Series B round closed", "medium", Orange),
    Company("HealthTech", "FDA filing detected", "high", Red),
    Company("EduPlatform", "B2C pivot signals", "high", Red)
  ]

  /** Most items the window keeps. */
  const MaxVisible: nat := 3

  /** The badge text: "HIGH" for 'high', "MED" for 'medium', "LOW" for
      every other level. */
  function BadgeLabel(level: string): (r: string)
    ensures r == "HIGH" <==> level == "high"
    ensures r == "MED" <==> level == "medium"
    ensures r == "LOW" <==> level != "high" && level != "medium"
  {
    if level == "high" then "HIGH" else if level == "medium" then "MED" else "LOW"
  }

  /** The level a badge label stands for (the partner of BadgeLabel). */
  function LevelOf(badge: string): string {
    if badge == "HIGH" then "high" else if badge == "MED" then "medium" else "low"
  }

  predicate KnownLevel(level: string) {
    level == "high" || level == "medium" || level == "low"
  }

  /** On the three levels the table uses, the label gives the level back. */
  lemma BadgeLabelRoundTrip(level: string)
    requires KnownLevel(level)
    ensures LevelOf(BadgeLabel(level)) == level
  {
  }

  /** A fact about the data in the table, not a rule the script enforces:
      every entry has one of the three levels the badge distinguishes, and
      its icon is the colour of that level. */
  lemma CompaniesWellFormed()
    ensures |Companies| == 10
    ensures forall c :: c in Companies ==> KnownLevel(c.level)
    ensures forall c :: c in Companies ==>
              c.icon == (if c.level == "high" then Red else if c.level == "medium" then Orange else Green)
  {
  }

  /** The .feed-item built from one table entry. On the levels the table
      uses, the badge text gives its CSS class back, so the two agree. */
  function Render(c: Company): (r: FeedItem)
    ensures KnownLevel(c.level) ==> LevelOf(r.badge) == r.badgeClass
  {
    FeedItem(c.icon, c.name, c.signal, c.level, BadgeLabel(c.level))
  }

  /** The rendering of every table entry, in table order. */
  function Rendered(table: seq<Company>): seq<FeedItem> {
    seq(|table|, i requires 0 <= i < |table| => Render(table[i]))
  }

  /** The window after `item` is inserted at the top and the bottom is
      trimmed to MaxVisible items; what stays of the old window keeps its
      order. */
  function Insert<T>(window: seq<T>, item: T): (r: seq<T>)
    ensures 1 <= |r| <= MaxVisible
    ensures |r| == if |window| < MaxVisible then |window| + 1 else MaxVisible
    ensures r[0] == item
    ensures r[1..] == window[..|r| - 1]
  {
    if |window| < MaxVisible then [item] + window else [item] + window[..MaxVisible - 1]
  }

  /** Inserting keeps the top MaxVisible items of the extended window. */
  lemma InsertKeepsTop<T>(window: seq<T>, item: T)
    ensures var full := [item] + window;
      Insert(window, item) == full[..if |full| < MaxVisible then |full| else MaxVisible]
  {
  }

  /** The window after k calls, the j-th call (counting from 0) inserting
      cycle[j % |cycle|], starting from whatever the markup holds. */
  function Window<T>(cycle: seq<T>, markup: seq<T>, k: nat): seq<T>
    requires |cycle| > 0
  {
    if k == 0 then markup else Insert(Window(cycle, markup, k - 1), cycle[(k - 1) % |cycle|])
  }

  /** Once three calls have run the window is exactly the last three
      insertions, newest first, whatever the markup held. */
  lemma {:induction false} WindowIsLastThree<T>(cycle: seq<T>, markup: seq<T>, k: nat)
    requires |cycle| > 0 && k >= MaxVisible
    ensures Window(cycle, markup, k)
            == [cycle[(k - 1) % |cycle|], cycle[(k - 2) % |cycle|], cycle[(k - 3) % |cycle|]]
  {
    if k > MaxVisible {
      WindowIsLastThree(cycle, markup, k - 1);
      var w := Window(cycle, markup, k - 1);
      var r := Insert(w, cycle[(k - 1) % |cycle|]);
      assert r == Window(cycle, markup, k);
      assert r[1..] == w[..2] == [cycle[(k - 2) % |cycle|], cycle[(k - 3) % |cycle|]];
    } else {
      WindowGrows(cycle, markup, 3);
    }
  }

  /** During the first three calls the window grows by one, newest first. */
  lemma {:induction false} WindowGrows<T>(cycle: seq<T>, markup: seq<T>, k: nat)
    requires |cycle| > 0 && 1 <= k <= MaxVisible
    ensures |Window(cycle, markup, k)| >= k
    ensures forall j :: 0 <= j < k ==> Window(cycle, markup, k)[j] == cycle[(k - 1 - j) % |cycle|]
  {
    if k > 1 {
      WindowGrows(cycle, markup, k - 1);
    }
  }

  /** The three initial calls show the first three entries, the third on
      top, and replace whatever the markup held. */
  lemma InitialWindow<T>(cycle: seq<T>, markup: seq<T>)
    requires |cycle| >= MaxVisible
    ensures Window(cycle, markup, 3) == [cycle[2], cycle[1], cycle[0]]
  {
    WindowIsLastThree(cycle, markup, 3);
    assert 2 % |cycle| == 2 && 1 % |cycle| == 1 && 0 % |cycle| == 0;
  }

  /** The visible list of #feedItems, with the table and the index of the
      next entry that the initialiser's closure holds. */
  class Feed {
    const companies: seq<Company>
    var items: seq<FeedItem>
    var currentIndex: nat
    ghost var markup: seq<FeedItem>

    ghost predicate Valid()
      reads this
    {
      |companies| > 0 && items == Window(Rendered(companies), markup, currentIndex)
    }

    /** Runs the three initial calls of addFeedItem on the markup's items. */
    constructor (markupItems: seq<FeedItem>)
      ensures Valid() && companies == Companies && markup == markupItems
      ensures currentIndex == 3
      ensures items == [Render(Companies[2]), Render(Companies[1]), Render(Companies[0])]
    {
      companies := Companies;
      items := markupItems;
      currentIndex := 0;
      markup := markupItems;
      new;
      var i := 0;
      while i < 3
        invariant Valid() && companies == Companies && markup == markupItems
        invariant currentIndex == i <= 3
      {
        AddFeedItem();
        i := i + 1;
      }
      InitialWindow(Rendered(companies), markupItems);
    }

    /** One call of addFeedItem: the table entry at currentIndex goes on
        top, the window is trimmed from the bottom, the index advances. */
    method AddFeedItem()
      requires Valid()
      modifies this
      ensures Valid() && markup == old(markup)
      ensures currentIndex == old(currentIndex) + 1
      ensures items == Insert(old(items), Render(companies[old(currentIndex) % |companies|]))
    {
      ghost var before := items;
      var item := Render(companies[currentIndex % |companies|]);
      items := [item] + items;
      TrimToVisible();
      InsertKeepsTop(before, item);
      currentIndex := currentIndex + 1;
    }

    /** The removal loop: drops the last item while more than MaxVisible
        are shown, so the top MaxVisible items stay, in order. */
    method TrimToVisible()
      modifies this
      ensures items == old(items)[..if |old(items)| < MaxVisible then |old(items)| else MaxVisible]
      ensures markup == old(markup) && currentIndex == old(currentIndex)
    {
      ghost var full := items;
      while |items| > MaxVisible
        invariant |items| >= MaxVisible || items == full
        invariant |items| <= |full| && items == full[..|items|]
        invariant markup == old(markup) && currentIndex == old(currentIndex)
        decreases |items|
      {
        items := items[..|items| - 1];
      }
    }
  }
}
