/**
 * The earlier recipe view set (recipes/views.py).  Its serializer choice and
 * permission classes are the API's; its shopping-list download joins the lines
 * with two spaces instead of a line break.
 */
module RecipesViews {
  import opened Wrappers
  import opened Tables
  import opened Schema
  import opened ShoppingCart

  const TWO_SPACES: string := "  "

  /** `RecipeViewSet.download_shopping_cart` of the earlier view set. */
  method DownloadShoppingCart(db: Db, viewer: Viewer, q: seq<Group>) returns (text: Option<string>)
    requires viewer.Account? ==> IsGrouped(q, CartPortions(db, viewer.id))
    ensures viewer.Anonymous? ==> text.None?
    ensures viewer.Account? ==> text == Some(Join(ReportLines(q), TWO_SPACES))
  {
    if viewer.Anonymous? {
      return None;
    }
    var data := [TITLE, COLUMNS];
    for i := 0 to |q|
      invariant data == ReportLines(q[..i])
    {
      assert q[..i + 1] == q[..i] + [q[i]];
      data := data + [FormatLine(q[i])];
    }
    assert q[..|q|] == q;
    text := Some(Join(data, TWO_SPACES));
  }

  /**
   * The column header itself holds two spaces, so the report of an empty
   * cart is also the two-space join of three different lines: the text does
   * not tell where its lines end.
   */
  lemma TwoSpaceJoinLosesLines()
    ensures var other := [TITLE, "Ингредиент | количество", "| ед.изм"];
      Join(ReportLines([]), TWO_SPACES) == Join(other, TWO_SPACES) && ReportLines([]) != other
  {
    var other := [TITLE, "Ингредиент | количество", "| ед.изм"];
    assert ReportLines([]) == [TITLE, COLUMNS];
    assert Join(other[1..], TWO_SPACES) == "Ингредиент | количество" + TWO_SPACES + "| ед.изм";
    assert COLUMNS == "Ингредиент | количество" + TWO_SPACES + "| ед.изм";
  }
}
