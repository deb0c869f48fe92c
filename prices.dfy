/** The recipe cost estimate of lib/utils/ingredient-prices.ts: a fixed table of average French
    market prices, looked up by the trimmed ingredient name, and a conversion of the recipe's
    quantity into the table's price unit. Numbers are real (floating point is not modelled). */
module Prices {
  import opened Wrappers
  import Text

  /** Every price in the table is positive. */
  type Price = r: real | r > 0.0 witness 1.0

  datatype PriceInfo = PriceInfo(pricePerUnit: Price, unit: string)

  const Kg: string := "kg"
  const Litre: string := "L"
  const Hundred: string := "100ml"
  const Piece: string := "unité"

  /** INGREDIENT_PRICES: vegetables and fruit. */
  const Produce: seq<(string, PriceInfo)> := [
    ("Chou", PriceInfo(2.5, Kg)),
    ("Chou vert", PriceInfo(2.5, Kg)),
    ("Carottes", PriceInfo(1.8, Kg)),
    ("Pommes de terre", PriceInfo(1.5, Kg)),
    ("Céleri", PriceInfo(3.0, Kg)),
    ("Céleri-rave", PriceInfo(3.5, Kg)),
    ("Endives", PriceInfo(2.8, Kg)),
    ("Poireaux", PriceInfo(2.2, Kg)),
    ("Potiron", PriceInfo(2.0, Kg)),
    ("Courgettes", PriceInfo(2.5, Kg)),
    ("Tomates", PriceInfo(3.5, Kg)),
    ("Oignon", PriceInfo(1.5, Kg)),
    ("Oignons", PriceInfo(1.5, Kg)),
    ("Ail", PriceInfo(8.0, Kg)),
    ("Épinards", PriceInfo(4.0, Kg)),
    ("Asperges", PriceInfo(8.0, Kg)),
    ("Radis", PriceInfo(3.0, Kg)),
    ("Haricots verts", PriceInfo(4.5, Kg)),
    ("Pommes", PriceInfo(2.5, Kg)),
    ("Poires", PriceInfo(2.8, Kg))
  ]

  /** INGREDIENT_PRICES: dairy, meat and fish. */
  const DairyAndMeat: seq<(string, PriceInfo)> := [
    ("Crème fraîche", PriceInfo(1.2, Hundred)),
    ("Crème", PriceInfo(1.2, Hundred)),
    ("Fromage râpé", PriceInfo(8.0, Kg)),
    ("Fromage à tartiflette", PriceInfo(12.0, Kg)),
    ("Beurre", PriceInfo(6.0, Kg)),
    ("Lait", PriceInfo(0.9, Litre)),
    ("Jambon", PriceInfo(15.0, Kg)),
    ("Bœuf", PriceInfo(18.0, Kg)),
    ("Porc", PriceInfo(12.0, Kg)),
    ("Poulet", PriceInfo(8.0, Kg)),
    ("Saumon", PriceInfo(20.0, Kg)),
    ("Thon", PriceInfo(15.0, Kg))
  ]

  /** INGREDIENT_PRICES: groceries, pastry and eggs. */
  const Pantry: seq<(string, PriceInfo)> := [
    ("Huile d'olive", PriceInfo(8.0, Litre)),
    ("Riz", PriceInfo(2.5, Kg)),
    ("Pâtes", PriceInfo(2.0, Kg)),
    ("Sucre", PriceInfo(1.5, Kg)),
    ("Farine", PriceInfo(1.2, Kg)),
    ("Sel", PriceInfo(0.5, Kg)),
    ("Poivre", PriceInfo(15.0, Kg)),
    ("Cannelle", PriceInfo(25.0, Kg)),
    ("Pâte brisée", PriceInfo(2.5, Piece)),
    ("Pâte feuilletée", PriceInfo(3.0, Piece)),
    ("Béchamel", PriceInfo(1.5, Hundred)),
    ("Oeufs", PriceInfo(0.25, Piece)),
    ("Œufs", PriceInfo(0.25, Piece))
  ]

  /** The table, in the order of its source text; no name occurs twice. */
  const IngredientPrices: seq<(string, PriceInfo)> := Produce + DairyAndMeat + Pantry

  /** The entry of a name in a table: the object property lookup INGREDIENT_PRICES[name]. */
  function Find(entries: seq<(string, PriceInfo)>, key: string): (r: Option<PriceInfo>)
    ensures r.Some? <==> exists i :: 0 <= i < |entries| && entries[i].0 == key
  {
    if entries == [] then None
    else if entries[0].0 == key then Some(entries[0].1)
    else
      var r := Find(entries[1..], key);
      assert forall i :: 0 < i < |entries| ==> entries[i] == entries[1..][i - 1];
      r
  }

  /** Looking a name up in a concatenation of tables looks in the first one, then the second. */
  lemma {:induction false} FindAppend(a: seq<(string, PriceInfo)>, b: seq<(string, PriceInfo)>, key: string)
    ensures Find(a + b, key) == if Find(a, key).Some? then Find(a, key) else Find(b, key)
  {
    if a == [] {
      assert a + b == b;
    } else {
      assert (a + b)[0] == a[0];
      assert (a + b)[1..] == a[1..] + b;
      FindAppend(a[1..], b, key);
    }
  }

  /** The table entry for a name, found after trimming the name; the lookup is case-sensitive. */
  function Lookup(name: string): (r: Option<PriceInfo>)
  {
    Find(IngredientPrices, Text.Trim(name))
  }

  /** The recipe units the conversion tells apart; every other unit is Other. */
  datatype UnitKind = Grams | Millilitres | HundredMl | Tablespoon | Teaspoon | Other

  function KindOf(unit: string): (k: UnitKind)
    ensures k == Other <==> unit !in {"g", "ml", "100ml", "cuillère à soupe", "cuillères à soupe",
                                      "cuillère à café", "cuillères à café"}
  {
    if unit == "g" then Grams
    else if unit == "ml" then Millilitres
    else if unit == "100ml" then HundredMl
    else if unit == "cuillère à soupe" || unit == "cuillères à soupe" then Tablespoon
    else if unit == "cuillère à café" || unit == "cuillères à café" then Teaspoon
    else Other
  }

  /** The recipe quantity expressed in the price unit: g against a per-kg price and ml against
      a per-litre price divide by 1000, "100ml" against a per-litre price by 10, a tablespoon is
      15 ml (0.015 of any other price unit) and a teaspoon 5 ml (0.005); any other pair of
      units leaves the quantity as it is. */
  function Convert(quantity: real, unit: UnitKind, priceUnit: string): real {
    if unit == Grams && priceUnit == Kg then quantity / 1000.0
    else if unit == Millilitres && priceUnit == Litre then quantity / 1000.0
    else if unit == HundredMl && priceUnit == Litre then quantity / 10.0
    else if unit == Tablespoon then
      if priceUnit == Litre then (quantity * 15.0) / 1000.0 else quantity * 0.015
    else if unit == Teaspoon then
      if priceUnit == Litre then (quantity * 5.0) / 1000.0 else quantity * 0.005
    else quantity
  }

  /** The price of a quantity given the table entry found, if any: an ingredient missing from
      the table costs one cent per unit of quantity. */
  function PriceFor(entry: Option<PriceInfo>, quantity: real, unit: UnitKind): real {
    match entry
    case None => quantity * 0.01
    case Some(info) => info.pricePerUnit * Convert(quantity, unit, info.unit)
  }

  /** calculateIngredientPrice: an ingredient missing from the table costs one cent per unit,
      a unit the conversion does not handle is priced unconverted, and a non-negative quantity
      never has a negative price. */
  function CalculateIngredientPrice(name: string, quantity: real, unit: string): (r: real)
    ensures Lookup(name).None? ==> r == quantity / 100.0
    ensures KindOf(unit) == Other ==> r == UnconvertedRate(Lookup(name)) * quantity
    ensures quantity >= 0.0 ==> r >= 0.0
  {
    PriceLinear(Lookup(name), quantity, 0.0, KindOf(unit));
    PriceFor(Lookup(name), quantity, KindOf(unit))
  }

  /** The price of one unit when the quantity is not converted: the entry's price, or one cent
      for an ingredient missing from the table. */
  function UnconvertedRate(entry: Option<PriceInfo>): real {
    if entry.Some? then entry.value.pricePerUnit else 0.01
  }

  /** A name missing from the table costs one cent per unit, whatever the unit. */
  lemma UnknownIngredient(name: string, quantity: real, unit: string)
    requires Lookup(name).None?
    ensures CalculateIngredientPrice(name, quantity, unit) == quantity / 100.0
  {
  }

  /** White space around the name does not change the entry found. */
  lemma LookupIgnoresSurroundingSpace(name: string)
    ensures Lookup(Text.Trim(name)) == Lookup(name)
  {
    Text.TrimIdempotent(name);
  }

  /** A non-negative quantity has a non-negative price, and the price is linear in the
      quantity, so the price of an aggregated grocery row is the sum of the prices of the rows
      merged into it. */
  lemma PriceLinear(entry: Option<PriceInfo>, q1: real, q2: real, unit: UnitKind)
    ensures q1 >= 0.0 ==> PriceFor(entry, q1, unit) >= 0.0
    ensures PriceFor(entry, q1 + q2, unit) == PriceFor(entry, q1, unit) + PriceFor(entry, q2, unit)
  {
  }

  /** The conversions agree with each other: for a per-kg price, 1000 g cost what 1 kg costs
      and a tablespoon (teaspoon) costs what 15 g (5 g) cost; for a per-litre price, 1000 ml and
      ten "100ml" cost what 1 L costs, and a tablespoon (teaspoon) costs what 15 ml (5 ml)
      cost. */
  lemma ConversionsAgree(info: PriceInfo, q: real)
    ensures info.unit == Kg ==>
      PriceFor(Some(info), 1000.0 * q, Grams) == PriceFor(Some(info), q, Other) &&
      PriceFor(Some(info), q, Tablespoon) == PriceFor(Some(info), 15.0 * q, Grams) &&
      PriceFor(Some(info), q, Teaspoon) == PriceFor(Some(info), 5.0 * q, Grams)
    ensures info.unit == Litre ==>
      PriceFor(Some(info), 1000.0 * q, Millilitres) == PriceFor(Some(info), q, Other) &&
      PriceFor(Some(info), 10.0 * q, HundredMl) == PriceFor(Some(info), q, Other) &&
      PriceFor(Some(info), q, Tablespoon) == PriceFor(Some(info), 15.0 * q, Millilitres) &&
      PriceFor(Some(info), q, Teaspoon) == PriceFor(Some(info), 5.0 * q, Millilitres)
  {
  }

  /** For a price given per 100 ml no case applies to millilitres: the quantity in millilitres
      is multiplied by the price of 100 ml, so 100 ml cost a hundred times the price of one
      "100ml". Cream is such an entry (CreamEntry), so 200 ml of cream are priced at 240. */
  lemma HundredMlUnconverted(info: PriceInfo, q: real)
    requires info.unit == Hundred
    ensures PriceFor(Some(info), 100.0 * q, Millilitres) == 100.0 * PriceFor(Some(info), q, HundredMl)
    ensures PriceFor(Some(info), q, Millilitres) == info.pricePerUnit * q
  {
  }

  /** Cream is priced per 100 ml. */
  lemma CreamEntry()
    ensures Lookup("Crème") == Some(PriceInfo(1.2, Hundred))
  {
    Text.TrimUnchanged("Crème");
    assert Find(Produce, "Crème") == None;
    assert Find(DairyAndMeat, "Crème") == Some(PriceInfo(1.2, Hundred));
    FindAppend(Produce, DairyAndMeat, "Crème");
    FindAppend(Produce + DairyAndMeat, Pantry, "Crème");
  }

  /** The conversion the table's "100ml" price unit calls for: millilitres and spoons against a
      per-100 ml price are divided by 100; every other pair is converted as before. */
  function ConvertIntended(quantity: real, unit: UnitKind, priceUnit: string): real {
    if priceUnit == Hundred && unit == Millilitres then quantity / 100.0
    else if priceUnit == Hundred && unit == Tablespoon then (quantity * 15.0) / 100.0
    else if priceUnit == Hundred && unit == Teaspoon then (quantity * 5.0) / 100.0
    else Convert(quantity, unit, priceUnit)
  }

  function PriceForIntended(entry: Option<PriceInfo>, quantity: real, unit: UnitKind): real {
    match entry
    case None => quantity * 0.01
    case Some(info) => info.pricePerUnit * ConvertIntended(quantity, unit, info.unit)
  }

  /** With the intended conversion, for a per-100 ml price, 100 ml cost what "100ml" costs and
      a tablespoon (teaspoon) costs what 15 ml (5 ml) cost; other price units are priced as
      before. */
  lemma IntendedConversionsAgree(entry: Option<PriceInfo>, q: real, unit: UnitKind)
    ensures entry.Some? && entry.value.unit == Hundred ==>
      PriceForIntended(entry, 100.0 * q, Millilitres) == PriceForIntended(entry, q, HundredMl) &&
      PriceForIntended(entry, q, Tablespoon) == PriceForIntended(entry, 15.0 * q, Millilitres) &&
      PriceForIntended(entry, q, Teaspoon) == PriceForIntended(entry, 5.0 * q, Millilitres)
    ensures entry.None? || entry.value.unit != Hundred ==>
      PriceForIntended(entry, q, unit) == PriceFor(entry, q, unit)
  {
  }
}
