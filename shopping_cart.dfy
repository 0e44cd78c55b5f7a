/**
 * The shopping list a user downloads: the IngredientRecipe rows of every
 * recipe in the user's shopping cart, grouped by ingredient name and unit with
 * their amounts summed, ordered by name, and rendered as a plain-text report.
 */
module ShoppingCart {
  import opened Wrappers
  import opened Tables
  import opened Schema

  /** One IngredientRecipe row of a recipe in the cart, joined to its ingredient's name and unit. */
  datatype Portion = Portion(name: string, unit: string, amount: nat)

  /** One row of the grouped query: `ingredient__name`, `ingredient__measurement_unit`, `ingredient_sum`. */
  datatype Group = Group(name: string, unit: string, total: nat)

  /** The ingredient row with id `id`, if there is one. */
  function FindIngredient(ingredients: seq<Ingredient>, id: Id): (r: Option<Ingredient>)
    ensures r.Some? ==> r.value in ingredients && r.value.id == id
    ensures r.None? ==> id !in IngredientIds(ingredients)
  {
    if ingredients == [] then None
    else if ingredients[0].id == id then Some(ingredients[0])
    else FindIngredient(ingredients[1..], id)
  }

  /** The portion one IngredientRecipe row contributes to `user`'s list, if any. */
  function RowPortion(row: IngredientRecipe, ingredients: seq<Ingredient>, cart: seq<Link>, user: Id): (r: Option<Portion>)
    ensures r.Some? <==> Link(user, row.recipe) in cart && row.ingredient in IngredientIds(ingredients)
    ensures r.Some? ==> r.value.amount == row.amount
    ensures r.Some? ==> exists i | i in ingredients :: i.id == row.ingredient && i.name == r.value.name && i.unit == r.value.unit
  {
    if Link(user, row.recipe) !in cart then None
    else match FindIngredient(ingredients, row.ingredient)
      case Some(i) => Some(Portion(i.name, i.unit, row.amount))
      case None => None
  }

  /**
   * The rows of `rows` whose recipe `user` has in the cart, joined to their
   * ingredients, in table order: every portion comes from such a row, and
   * every such row gives one.
   */
  function PortionsOf(rows: seq<IngredientRecipe>, ingredients: seq<Ingredient>, cart: seq<Link>, user: Id): (ps: seq<Portion>)
    ensures |ps| <= |rows|
    ensures forall p | p in ps :: exists row | row in rows :: RowPortion(row, ingredients, cart, user) == Some(p)
    ensures forall row | row in rows && RowPortion(row, ingredients, cart, user).Some? ::
      RowPortion(row, ingredients, cart, user).value in ps
  {
    if rows == [] then []
    else
      var init, last := rows[..|rows| - 1], rows[|rows| - 1];
      assert rows == init + [last];
      var more := match RowPortion(last, ingredients, cart, user)
        case Some(p) => [p]
        case None => [];
      PortionsOf(init, ingredients, cart, user) + more
  }

  /** `IngredientRecipe.objects.filter(recipe__is_in_shopping_list__user=user)` with its ingredient's name and unit. */
  function CartPortions(db: Db, user: Id): seq<Portion> {
    PortionsOf(db.ingredientRecipes, db.ingredients, db.shoppingLists, user)
  }

  /** Does `row` give exactly the portion `p`? */
  function Gives(ingredients: seq<Ingredient>, cart: seq<Link>, user: Id, p: Portion): IngredientRecipe -> bool {
    row => RowPortion(row, ingredients, cart, user) == Some(p)
  }

  /** Each portion occurs in the list once per row that gives it: the join neither merges nor duplicates rows. */
  lemma {:induction false} PortionsCount(rows: seq<IngredientRecipe>, ingredients: seq<Ingredient>, cart: seq<Link>, user: Id, p: Portion)
    ensures multiset(PortionsOf(rows, ingredients, cart, user))[p] == |Filter(rows, Gives(ingredients, cart, user, p))|
  {
    if rows != [] {
      var init, last := rows[..|rows| - 1], rows[|rows| - 1];
      assert rows == init + [last];
      PortionsCount(init, ingredients, cart, user, p);
      FilterAppend(init, last, Gives(ingredients, cart, user, p));
    }
  }

  /** Is some ingredient row with id `id` called `name`, measured in `unit`? */
  predicate Named(ingredients: seq<Ingredient>, id: Id, name: string, unit: string) {
    exists i | i in ingredients :: i.id == id && i.name == name && i.unit == unit
  }

  /** The sum of the amounts of the rows of cart recipes whose ingredient is (`name`, `unit`), read off the rows. */
  function CartRowsTotal(rows: seq<IngredientRecipe>, ingredients: seq<Ingredient>, cart: seq<Link>, user: Id, name: string, unit: string): nat {
    if rows == [] then 0
    else
      var last := rows[|rows| - 1];
      CartRowsTotal(rows[..|rows| - 1], ingredients, cart, user, name, unit)
        + (if Link(user, last.recipe) in cart && Named(ingredients, last.ingredient, name, unit) then last.amount else 0)
  }

  /** With ingredient ids unique, looking an ingredient up by its id finds that ingredient. */
  lemma FindsOwnIngredient(ingredients: seq<Ingredient>, i: Ingredient)
    requires Pairwise(ingredients, IngredientKeysDiffer)
    requires i in ingredients
    ensures FindIngredient(ingredients, i.id) == Some(i)
  {
    var a :| 0 <= a < |ingredients| && ingredients[a] == i;
    forall b | 0 <= b < |ingredients| && b != a ensures ingredients[b].id != i.id {
      if a < b {
        assert IngredientKeysDiffer(ingredients[a], ingredients[b]);
      } else {
        assert IngredientKeysDiffer(ingredients[b], ingredients[a]);
      }
    }
    assert i.id in IngredientIds(ingredients);
    var found := FindIngredient(ingredients, i.id).value;
    var b :| 0 <= b < |ingredients| && ingredients[b] == found;
  }

  /** The row's portion counts toward (`name`, `unit`) exactly when its recipe is in the cart and its ingredient has that name and unit. */
  lemma RowCounts(row: IngredientRecipe, ingredients: seq<Ingredient>, cart: seq<Link>, user: Id, name: string, unit: string)
    requires Pairwise(ingredients, IngredientKeysDiffer)
    ensures (RowPortion(row, ingredients, cart, user).Some? && RowPortion(row, ingredients, cart, user).value.name == name
        && RowPortion(row, ingredients, cart, user).value.unit == unit)
      <==> Link(user, row.recipe) in cart && Named(ingredients, row.ingredient, name, unit)
  {
    if Link(user, row.recipe) in cart && Named(ingredients, row.ingredient, name, unit) {
      var i :| i in ingredients && i.id == row.ingredient && i.name == name && i.unit == unit;
      FindsOwnIngredient(ingredients, i);
    }
  }

  /**
   * The shopping list's total for one ingredient is the sum of the amounts of
   * the cart recipes' rows for that ingredient: joining to the ingredient
   * table loses and invents nothing.
   */
  lemma {:induction false} CartTotal(rows: seq<IngredientRecipe>, ingredients: seq<Ingredient>, cart: seq<Link>, user: Id, name: string, unit: string)
    requires Pairwise(ingredients, IngredientKeysDiffer)
    ensures Total(PortionsOf(rows, ingredients, cart, user), name, unit) == CartRowsTotal(rows, ingredients, cart, user, name, unit)
  {
    if rows != [] {
      var init, last := rows[..|rows| - 1], rows[|rows| - 1];
      CartTotal(init, ingredients, cart, user, name, unit);
      RowCounts(last, ingredients, cart, user, name, unit);
      var before := PortionsOf(init, ingredients, cart, user);
      match RowPortion(last, ingredients, cart, user)
      case Some(p) =>
        assert (before + [p])[..|before|] == before;
      case None =>
        assert before + [] == before;
    }
  }

  /** A user whose cart holds no recipe has nothing to buy. */
  lemma {:induction false} EmptyCartNoPortions(rows: seq<IngredientRecipe>, ingredients: seq<Ingredient>, cart: seq<Link>, user: Id)
    requires forall l | l in cart :: l.actor != user
    ensures PortionsOf(rows, ingredients, cart, user) == []
  {
    if rows != [] {
      EmptyCartNoPortions(rows[..|rows| - 1], ingredients, cart, user);
    }
  }

  // ---------------------------------------------------------------- grouping

  /** `Sum('amount')` over the portions of one (name, unit). */
  function Total(ps: seq<Portion>, name: string, unit: string): nat {
    if ps == [] then 0
    else
      var last := ps[|ps| - 1];
      Total(ps[..|ps| - 1], name, unit) + (if last.name == name && last.unit == unit then last.amount else 0)
  }

  function PortionKeys(ps: seq<Portion>): set<(string, string)> {
    set p | p in ps :: (p.name, p.unit)
  }

  function GroupKeys(q: seq<Group>): set<(string, string)> {
    set g | g in q :: (g.name, g.unit)
  }

  predicate GroupKeysDiffer(a: Group, b: Group) {
    a.name != b.name || a.unit != b.unit
  }

  predicate NameOrdered(a: Group, b: Group) {
    StrLe(a.name, b.name)
  }

  /**
   * `q` is what `.values(name, unit).order_by(name).annotate(Sum(amount))`
   * returns for `ps`: one row per distinct (name, unit), carrying the sum of
   * its amounts, in ascending name order.  The order among rows that share a
   * name is left to the database.
   */
  predicate IsGrouped(q: seq<Group>, ps: seq<Portion>) {
    && GroupKeys(q) == PortionKeys(ps)
    && Pairwise(q, GroupKeysDiffer)
    && Pairwise(q, NameOrdered)
    && forall g | g in q :: g.total == Total(ps, g.name, g.unit)
  }

  /** Adds one portion to a grouped result: to its group when there is one, else as a new group in name order. */
  function Place(q: seq<Group>, p: Portion): seq<Group> {
    if q == [] then [Group(p.name, p.unit, p.amount)]
    else if q[0].name == p.name && q[0].unit == p.unit then [q[0].(total := q[0].total + p.amount)] + q[1..]
    else if q[0].name != p.name && StrLe(p.name, q[0].name) then [Group(p.name, p.unit, p.amount)] + q
    else [q[0]] + Place(q[1..], p)
  }

  /** A reference grouping: the portions placed one by one. */
  function GroupPortions(ps: seq<Portion>): seq<Group> {
    if ps == [] then [] else Place(GroupPortions(ps[..|ps| - 1]), ps[|ps| - 1])
  }

  /** Placing changes or adds only the group of the portion's own (name, unit). */
  lemma {:induction false} PlaceMembers(q: seq<Group>, p: Portion)
    ensures GroupKeys(Place(q, p)) == GroupKeys(q) + {(p.name, p.unit)}
    ensures forall g | g in Place(q, p) && (g.name != p.name || g.unit != p.unit) :: g in q
  {
    var r := Place(q, p);
    if q == [] {
    } else {
      var tail := q[1..];
      assert q == [q[0]] + tail;
      assert GroupKeys(q) == {(q[0].name, q[0].unit)} + GroupKeys(tail);
      if q[0].name == p.name && q[0].unit == p.unit {
        assert r == [q[0].(total := q[0].total + p.amount)] + tail;
        assert GroupKeys(r) == {(q[0].name, q[0].unit)} + GroupKeys(tail);
      } else if q[0].name != p.name && StrLe(p.name, q[0].name) {
        assert r == [Group(p.name, p.unit, p.amount)] + q;
        assert GroupKeys(r) == {(p.name, p.unit)} + GroupKeys(q);
      } else {
        PlaceMembers(tail, p);
        var rest := Place(tail, p);
        assert r == [q[0]] + rest;
        assert GroupKeys(r) == {(q[0].name, q[0].unit)} + GroupKeys(rest);
      }
    }
  }

  /** A name that sorts strictly before the first group's sorts strictly before every group's. */
  lemma NewNameFirst(q: seq<Group>, p: Portion)
    requires Pairwise(q, NameOrdered)
    requires q != [] && q[0].name != p.name && StrLe(p.name, q[0].name)
    ensures forall g | g in q :: g.name != p.name && StrLe(p.name, g.name)
  {
    StrLtNotGe(p.name, q[0].name);
    forall g | g in q ensures g.name != p.name && StrLe(p.name, g.name) {
      var k :| 0 <= k < |q| && q[k] == g;
      if k > 0 {
        assert NameOrdered(q[0], q[k]);
        StrLeTrans(p.name, q[0].name, g.name);
      }
    }
  }

  lemma StrLtNotGe(a: string, b: string)
    requires StrLe(a, b) && a != b
    ensures !StrLe(b, a)
  {
    if StrLe(b, a) { StrLeAntisym(a, b); }
  }

  lemma TailPairwise(q: seq<Group>, rel: (Group, Group) -> bool)
    requires q != [] && Pairwise(q, rel)
    ensures Pairwise(q[1..], rel)
  {
    var tail := q[1..];
    forall i, j | 0 <= i < j < |tail| ensures rel(tail[i], tail[j]) {
      assert tail[i] == q[i + 1] && tail[j] == q[j + 1];
    }
  }

  /** Replacing the first group by one with the same key and name keeps both orders. */
  lemma PrependSameKey(q: seq<Group>, head: Group)
    requires q != [] && head.name == q[0].name && head.unit == q[0].unit
    requires Pairwise(q, GroupKeysDiffer) && Pairwise(q, NameOrdered)
    ensures Pairwise([head] + q[1..], GroupKeysDiffer) && Pairwise([head] + q[1..], NameOrdered)
  {
    var r := [head] + q[1..];
    forall i, j | 0 <= i < j < |r| ensures GroupKeysDiffer(r[i], r[j]) && NameOrdered(r[i], r[j]) {
      assert GroupKeysDiffer(q[i], q[j]) && NameOrdered(q[i], q[j]);
    }
  }

  /** Putting a group before others keeps both orders when its key is new and its name sorts first. */
  lemma PrependGroup(head: Group, q: seq<Group>)
    requires Pairwise(q, GroupKeysDiffer) && Pairwise(q, NameOrdered)
    requires forall g | g in q :: GroupKeysDiffer(head, g) && NameOrdered(head, g)
    ensures Pairwise([head] + q, GroupKeysDiffer) && Pairwise([head] + q, NameOrdered)
  {
    var r := [head] + q;
    forall i, j | 0 <= i < j < |r| ensures GroupKeysDiffer(r[i], r[j]) && NameOrdered(r[i], r[j]) {
      if i == 0 {
        assert r[j] in q;
      } else {
        assert r[i] == q[i - 1] && r[j] == q[j - 1];
      }
    }
  }

  /** Placing keeps the keys unique and the names in order. */
  lemma {:induction false} PlaceOrdered(q: seq<Group>, p: Portion)
    requires Pairwise(q, GroupKeysDiffer) && Pairwise(q, NameOrdered)
    ensures Pairwise(Place(q, p), GroupKeysDiffer) && Pairwise(Place(q, p), NameOrdered)
  {
    if q == [] {
    } else if q[0].name == p.name && q[0].unit == p.unit {
      PrependSameKey(q, q[0].(total := q[0].total + p.amount));
    } else if q[0].name != p.name && StrLe(p.name, q[0].name) {
      NewNameFirst(q, p);
      PrependGroup(Group(p.name, p.unit, p.amount), q);
    } else {
      var tail := q[1..];
      TailPairwise(q, GroupKeysDiffer);
      TailPairwise(q, NameOrdered);
      PlaceOrdered(tail, p);
      PlaceMembers(tail, p);
      StrLeTotal(p.name, q[0].name);
      forall g | g in Place(tail, p) ensures GroupKeysDiffer(q[0], g) && NameOrdered(q[0], g) {
        if g.name != p.name || g.unit != p.unit {
          var k :| 0 <= k < |tail| && tail[k] == g;
          assert GroupKeysDiffer(q[0], q[k + 1]) && NameOrdered(q[0], q[k + 1]);
        }
      }
      PrependGroup(q[0], Place(tail, p));
    }
  }

  /** The portion's amount goes to its own group, which is new when the key was absent. */
  lemma {:induction false} PlaceTotals(q: seq<Group>, p: Portion)
    requires Pairwise(q, GroupKeysDiffer) && Pairwise(q, NameOrdered)
    ensures forall g, h | g in Place(q, p) && h in q && g.name == h.name == p.name && g.unit == h.unit == p.unit ::
      g.total == h.total + p.amount
    ensures (p.name, p.unit) !in GroupKeys(q) ==>
      forall g | g in Place(q, p) && g.name == p.name && g.unit == p.unit :: g.total == p.amount
  {
    var r := Place(q, p);
    if q == [] {
    } else if q[0].name == p.name && q[0].unit == p.unit {
      var head := q[0].(total := q[0].total + p.amount);
      var tail := q[1..];
      assert q == [q[0]] + tail && r == [head] + tail;
      forall h | h in tail ensures GroupKeysDiffer(q[0], h) {
        var k :| 0 <= k < |tail| && tail[k] == h;
        assert GroupKeysDiffer(q[0], q[k + 1]);
      }
    } else if q[0].name != p.name && StrLe(p.name, q[0].name) {
      assert r == [Group(p.name, p.unit, p.amount)] + q;
      NewNameFirst(q, p);
    } else {
      var tail := q[1..];
      TailPairwise(q, GroupKeysDiffer);
      TailPairwise(q, NameOrdered);
      PlaceTotals(tail, p);
      var rest := Place(tail, p);
      assert r == [q[0]] + rest;
      assert q == [q[0]] + tail;
      forall g, h | g in r && h in q && g.name == h.name == p.name && g.unit == h.unit == p.unit
        ensures g.total == h.total + p.amount
      {
        assert g in rest && h in tail;
      }
      if (p.name, p.unit) !in GroupKeys(q) {
        assert (p.name, p.unit) !in GroupKeys(tail);
      }
    }
  }

  lemma {:induction false} TotalAbsent(ps: seq<Portion>, name: string, unit: string)
    requires (name, unit) !in PortionKeys(ps)
    ensures Total(ps, name, unit) == 0
  {
    if ps != [] {
      var init := ps[..|ps| - 1];
      assert PortionKeys(init) <= PortionKeys(ps);
      TotalAbsent(init, name, unit);
    }
  }

  /** Placing the next portion into a grouping of the earlier ones gives a grouping of all of them. */
  lemma PlaceGrouped(q: seq<Group>, ps: seq<Portion>, p: Portion)
    requires IsGrouped(q, ps)
    ensures IsGrouped(Place(q, p), ps + [p])
  {
    var all := ps + [p];
    assert all[..|all| - 1] == ps;
    PlaceMembers(q, p);
    PlaceOrdered(q, p);
    PlaceTotals(q, p);
    assert PortionKeys(all) == PortionKeys(ps) + {(p.name, p.unit)};
    forall g | g in Place(q, p) ensures g.total == Total(all, g.name, g.unit) {
      if g.name == p.name && g.unit == p.unit {
        if (p.name, p.unit) in GroupKeys(q) {
          var h :| h in q && (h.name, h.unit) == (p.name, p.unit);
        } else {
          TotalAbsent(ps, p.name, p.unit);
        }
      }
    }
  }

  /** The reference grouping meets the specification of the query. */
  lemma {:induction false} GroupPortionsGrouped(ps: seq<Portion>)
    ensures IsGrouped(GroupPortions(ps), ps)
  {
    if ps != [] {
      var init := ps[..|ps| - 1];
      GroupPortionsGrouped(init);
      assert ps == init + [ps[|ps| - 1]];
      PlaceGrouped(GroupPortions(init), init, ps[|ps| - 1]);
    }
  }

  /** Two results of the query for the same portions differ at most in the order of groups sharing a name. */
  lemma SameGroups(q: seq<Group>, q': seq<Group>, ps: seq<Portion>)
    requires IsGrouped(q, ps) && IsGrouped(q', ps)
    ensures forall g | g in q :: g in q'
  {
    forall g | g in q ensures g in q' {
      assert (g.name, g.unit) in GroupKeys(q');
      var h :| h in q' && (h.name, h.unit) == (g.name, g.unit);
    }
  }

  /** Nothing to group gives no rows. */
  lemma NoPortionsNoGroups(q: seq<Group>)
    requires IsGrouped(q, [])
    ensures q == []
  {
    NonEmptyHasKeys(q);
    assert PortionKeys([]) == {};
  }

  lemma NonEmptyHasKeys(q: seq<Group>)
    ensures q != [] ==> (q[0].name, q[0].unit) in GroupKeys(q)
  {
    if q != [] { assert q[0] in q; }
  }

  // --------------------------------------------------------------- rendering

  const TITLE: string := "Список ингредиентов для покупки:"
  const COLUMNS: string := "Ингредиент | количество  | ед.изм"

  /** `f'{name} | {amount} | {measurement}'`. */
  function FormatLine(g: Group): (line: string)
    ensures line == g.name + " | " + NatToString(g.total) + " | " + g.unit
    ensures line[..|g.name|] == g.name && line[|line| - |g.unit|..] == g.unit
  {
    g.name + " | " + NatToString(g.total) + " | " + g.unit
  }

  /** The report's lines: the two headers, then one line per group in query order. */
  function ReportLines(q: seq<Group>): (lines: seq<string>)
    ensures |lines| == |q| + 2
    ensures lines[0] == TITLE && lines[1] == COLUMNS
    ensures forall i | 0 <= i < |q| :: lines[i + 2] == FormatLine(q[i])
  {
    [TITLE, COLUMNS] + seq(|q|, i requires 0 <= i < |q| => FormatLine(q[i]))
  }

  /** A name or unit that holds no line break. */
  predicate OneLine(s: string) {
    forall i | 0 <= i < |s| :: s[i] != '\r' && s[i] != '\n'
  }

  lemma OneLineNoCrlf(s: string)
    requires OneLine(s)
    ensures NoCrlf(s)
  {
    forall i | 0 <= i < |s| - 1 ensures !(s[i] == '\r' && s[i + 1] == '\n') {
      assert s[i] != '\r';
    }
  }

  lemma FormatLineOneLine(g: Group)
    requires OneLine(g.name) && OneLine(g.unit)
    ensures OneLine(FormatLine(g))
  {
    var digits := NatToString(g.total);
    var line := FormatLine(g);
    forall i | 0 <= i < |line| ensures line[i] != '\r' && line[i] != '\n' {
      var a := |g.name|;
      var b := a + 3;
      var c := b + |digits|;
      var d := c + 3;
      if i < a { assert line[i] == g.name[i]; }
      else if i < b { assert line[i] == " | "[i - a]; }
      else if i < c { assert line[i] == digits[i - b]; }
      else if i < d { assert line[i] == " | "[i - c]; }
      else { assert line[i] == g.unit[i - d]; }
    }
  }
}
