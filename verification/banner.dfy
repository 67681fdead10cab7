/** The seasonal banner of src/components/SeasonalBanner.tsx: the month picks
    one of three contents, and the close button hides the banner for good.
    The clock is a parameter: the month index that `getMonth()` returns. */
module Banner {
  import opened Values

  /** `getMonth()`: 0 for January through 11 for December. */
  type Month = m: int | 0 <= m < 12

  predicate IsWinter(m: Month) {
    m == 11 || m == 0 || m == 1
  }

  predicate IsSummer(m: Month) {
    m >= 5 && m <= 7
  }

  datatype Icon = Snowflake | Sun | Gift

  datatype Content = Content(
    icon: Icon,
    title: string,
    subtitle: string,
    description: string,
    bgGradient: string,
    accentColor: string,
    buttonClass: string)

  const WinterSale := Content(Snowflake, "Winter Sale", "Cozy up with amazing deals!",
    "Get up to 50% off on winter essentials and warm clothing",
    "from-blue-600 via-purple-600 to-indigo-700", "text-blue-100",
    "bg-white text-blue-600 hover:bg-blue-50")

  const SummerCollection := Content(Sun, "Summer Collection", "Beat the heat in style!",
    "Discover our cool summer collection with refreshing deals",
    "from-orange-500 via-red-500 to-pink-600", "text-orange-100",
    "bg-white text-orange-600 hover:bg-orange-50")

  const SeasonalOffers := Content(Gift, "Seasonal Offers", "Special deals await you!",
    "Explore our curated collection with exclusive seasonal discounts",
    "from-emerald-600 via-teal-600 to-cyan-700", "text-emerald-100",
    "bg-white text-emerald-600 hover:bg-emerald-50")

  /** `getSeasonalContent`: winter is checked before summer. The result is
      the month's entry in the written-out calendar. */
  function SeasonalContent(m: Month): (r: Content)
    ensures r == Calendar[m]
  {
    if IsWinter(m) then WinterSale
    else if IsSummer(m) then SummerCollection
    else SeasonalOffers
  }

  /** The calendar written out month by month, January first. */
  const Calendar: seq<Content> := [
    WinterSale, WinterSale,
    SeasonalOffers, SeasonalOffers, SeasonalOffers,
    SummerCollection, SummerCollection, SummerCollection,
    SeasonalOffers, SeasonalOffers, SeasonalOffers,
    WinterSale]

  /** The three contents are told apart by their titles. */
  lemma ContentsDistinct()
    ensures WinterSale.title != SummerCollection.title
    ensures WinterSale.title != SeasonalOffers.title
    ensures SummerCollection.title != SeasonalOffers.title
  {
    assert WinterSale.title[0] == 'W';
    assert SummerCollection.title[1] == 'u';
    assert SeasonalOffers.title[1] == 'e';
  }

  /** No month is both winter and summer, so the order of the checks does
      not matter. */
  lemma SeasonsDisjoint(m: Month)
    ensures !(IsWinter(m) && IsSummer(m))
    ensures IsSummer(m) ==> SeasonalContent(m) == SummerCollection
  {
  }

  /** The content agrees with the written-out calendar in every month, and
      each content is chosen exactly in its season. */
  lemma {:induction false} ContentFollowsCalendar(m: Month)
    ensures |Calendar| == 12
    ensures SeasonalContent(m) == Calendar[m]
    ensures SeasonalContent(m) == WinterSale <==> IsWinter(m)
    ensures SeasonalContent(m) == SummerCollection <==> IsSummer(m)
    ensures SeasonalContent(m) == SeasonalOffers <==> !IsWinter(m) && !IsSummer(m)
  {
    ContentsDistinct();
  }

  /** The banner's rendering: nothing once it has been closed. */
  function Render(visible: bool, m: Month): (r: Option<Content>)
    ensures r.Some? <==> visible
    ensures visible ==> r == Some(Calendar[m])
  {
    if visible then Some(SeasonalContent(m)) else None
  }

  /** The banner starts visible; the close button sets it invisible, and
      nothing sets it visible again. */
  const InitiallyVisible := true
  const AfterClose := false

  /** Before a close the banner shows the month's content; after one it shows
      nothing, whatever the month. */
  lemma CloseHidesForGood(m: Month, later: Month)
    ensures Render(InitiallyVisible, m) == Some(SeasonalContent(m))
    ensures Render(AfterClose, later).None?
  {
  }
}
