/** The supermarket (`Supermarket`, `Product`): products grouped in
    categories, and for each product and each category the history of the
    discount percentages applied to it, oldest first. */
module Supermarkets {
  import opened Util
  import opened JavaText

  /** The largest discount percentage `setDiscount` accepts. */
  const MAX_DISCOUNT := 40

  /** The causes an `SMException` is thrown for. */
  datatype Reason =
    | CategoryDefined
    | NamePresent
    | Incompatible
    | ProductUndefined
    | CategoryUndefined
    | TooHigh

  /** The message each cause is reported with. */
  function Message(reason: Reason): string {
    match reason
    case CategoryDefined => "Category already defined!"
    case NamePresent => "One of the product is already present in a different category!"
    case Incompatible => "Number of products and prices passed as argument are incompatible!"
    case ProductUndefined => "Product is not defined!"
    case CategoryUndefined => "Category not defined!"
    case TooHigh => "Percentage too high!"
  }

  /** How an operation ends when it does not return: with the checked
      `SMException`, with the `NumberFormatException` of `Double.valueOf`,
      or with the `NoSuchElementException` of `Optional.get`. */
  datatype Failure =
    | SMException(reason: Reason)
    | NumberFormat
    | NoSuchElement

  datatype Outcome<T> = Done(value: T) | Thrown(failure: Failure)

  /** A product: its name and price are fixed, its discount history grows. */
  class Product {
    const name: string
    const price: real
    var discounts: seq<int>

    constructor (name: string, price: real)
      ensures this.name == name && this.price == price && discounts == [0]
    {
      this.name, this.price := name, price;
      discounts := [0];
    }

    /** `setDiscount`: the percentage goes at the end of the history. */
    method SetDiscount(percentage: int)
      modifies this
      ensures discounts == old(discounts) + [percentage]
    {
      discounts := discounts + [percentage];
    }
  }

  /** `n` times the percentage `p`. */
  function Repeat(p: int, n: nat): (r: seq<int>)
    ensures |r| == n && forall k :: 0 <= k < n ==> r[k] == p
  {
    seq(n, _ => p)
  }

  lemma RepeatSnoc(p: int)
    ensures forall n: nat :: Repeat(p, n + 1) == Repeat(p, n) + [p]
  {
    forall n: nat
      ensures Repeat(p, n + 1) == Repeat(p, n) + [p]
    {
    }
  }

  /** The names of a list of products, in order. */
  function Names(ps: seq<Product>): (r: seq<string>)
    ensures |r| == |ps| && forall k :: 0 <= k < |ps| ==> r[k] == ps[k].name
  {
    seq(|ps|, k requires 0 <= k < |ps| => ps[k].name)
  }

  /** The product lists of the categories `cs`, one after the other:
      `values().stream().flatMap(...)` with the categories visited in the
      order `cs`. */
  function Flatten(cs: seq<string>, m: map<string, seq<Product>>): seq<Product>
  {
    if cs == [] then []
    else (if cs[0] in m then m[cs[0]] else []) + Flatten(cs[1..], m)
  }

  lemma {:induction false} FlattenConcat(a: seq<string>, b: seq<string>, m: map<string, seq<Product>>)
    ensures Flatten(a + b, m) == Flatten(a, m) + Flatten(b, m)
  {
    if a != [] {
      var head := if a[0] in m then m[a[0]] else [];
      assert (a + b)[0] == a[0] && (a + b)[1..] == a[1..] + b;
      assert Flatten(a + b, m) == head + Flatten(a[1..] + b, m);
      FlattenConcat(a[1..], b, m);
    } else {
      assert a + b == b;
    }
  }

  /** Adding a category the list does not visit changes nothing. */
  lemma {:induction false} FlattenOther(cs: seq<string>, m: map<string, seq<Product>>, c: string, l: seq<Product>)
    requires c !in cs
    ensures Flatten(cs, m[c := l]) == Flatten(cs, m)
  {
    if cs != [] {
      FlattenOther(cs[1..], m, c, l);
    }
  }

  /** The products of the `k`-th category sit in one block of the
      flattened list. */
  lemma FlattenBlock(cs: seq<string>, m: map<string, seq<Product>>, k: nat)
    requires k < |cs| && cs[k] in m
    ensures Flatten(cs, m) == Flatten(cs[..k], m) + m[cs[k]] + Flatten(cs[k + 1..], m)
  {
    assert cs == cs[..k] + ([cs[k]] + cs[k + 1..]);
    FlattenConcat(cs[..k], [cs[k]] + cs[k + 1..], m);
    FlattenConcat([cs[k]], cs[k + 1..], m);
  }

  /** Names in the first `i` positions are new and their prices read. */
  predicate Accepted(names: seq<string>, prices: seq<string>, known: seq<string>,
                     parsePrice: string -> Option<real>, i: nat)
    requires i <= |names| == |prices|
  {
    forall j :: 0 <= j < i ==> names[j] !in known && parsePrice(prices[j]).Some?
  }

  /** `l` holds one product per name, with the price read from the text at
      the same position. */
  predicate Made(l: seq<Product>, names: seq<string>, prices: seq<string>, parsePrice: string -> Option<real>)
    requires |names| == |prices|
  {
    |l| == |names| &&
    forall k :: 0 <= k < |l| ==> l[k].name == names[k] && parsePrice(prices[k]) == Some(l[k].price)
  }

  /** The loop of `addProducts`: one new product per name, stopping at the
      first name already `known` or price that does not read as a number. */
  method MakeProducts(names: seq<string>, prices: seq<string>, known: seq<string>,
                      parsePrice: string -> Option<real>) returns (r: Outcome<seq<Product>>)
    requires |names| == |prices|
    ensures r.Thrown? ==> r.failure == SMException(NamePresent) || r.failure == NumberFormat
    ensures r == Thrown(SMException(NamePresent)) <==>
      exists i :: 0 <= i < |names| && Accepted(names, prices, known, parsePrice, i) && names[i] in known
    ensures r == Thrown(NumberFormat) <==>
      exists i :: 0 <= i < |names| && Accepted(names, prices, known, parsePrice, i) &&
        names[i] !in known && parsePrice(prices[i]).None?
    ensures r.Done? <==> Accepted(names, prices, known, parsePrice, |names|)
    ensures r.Done? ==>
      Made(r.value, names, prices, parsePrice) && NoDuplicates(r.value) &&
      forall q | q in r.value :: fresh(q) && q.discounts == [0]
  {
    var listP: seq<Product> := [];
    var i := 0;
    while i < |names|
      invariant i <= |names|
      invariant Accepted(names, prices, known, parsePrice, i)
      invariant Made(listP, names[..i], prices[..i], parsePrice) && NoDuplicates(listP)
      invariant forall q | q in listP :: fresh(q) && q.discounts == [0]
    {
      if names[i] in known {
        return Thrown(SMException(NamePresent));
      }
      match parsePrice(prices[i]) {
        case None =>
          return Thrown(NumberFormat);
        case Some(price) =>
          var q := new Product(names[i], price);
          listP := listP + [q];
      }
      i := i + 1;
    }
    assert names[..i] == names && prices[..i] == prices;
    r := Done(listP);
  }

  class Supermarket {
    /** The categories in the order `productsByCategory.values()` visits
        them, taken to be the order they were added in. */
    var categories: seq<string>
    var productsByCategory: map<string, seq<Product>>
    var categoryDiscounts: map<string, seq<int>>

    /** The two maps have the same categories, those listed once each in
        `categories`; no product is in two places; every category history
        starts with 0. */
    ghost predicate Valid()
      reads this
    {
      NoDuplicates(categories) && NoDuplicates(AllProducts()) &&
      (forall c :: c in productsByCategory <==> c in categories) &&
      productsByCategory.Keys == categoryDiscounts.Keys &&
      forall c | c in categoryDiscounts :: categoryDiscounts[c] != [] && categoryDiscounts[c][0] == 0
    }

    constructor ()
      ensures Valid()
      ensures categories == [] && productsByCategory == map[] && categoryDiscounts == map[]
    {
      categories, productsByCategory, categoryDiscounts := [], map[], map[];
    }

    /** Every product of every category, category by category. */
    function AllProducts(): seq<Product>
      reads this
    {
      Flatten(categories, productsByCategory)
    }

    ghost function Stock(): set<Product>
      reads this
    {
      set q | q in AllProducts()
    }

    /** The product a search by name finds: `filter(...).findAny()` over
        all products, taken to be the first one with that name. */
    function Find(name: string): (r: Option<Product>)
      reads this
      ensures r.None? <==> name !in Names(AllProducts())
      ensures r.Some? ==> r.value in AllProducts() && r.value.name == name
    {
      match IndexOf(Names(AllProducts()), name)
      case None => None
      case Some(k) => Some(AllProducts()[k])
    }

    /** How many times `setDiscount(p, ns)` reaches `q`: once per listing
        of its name, provided it is the product the search by that name
        finds. */
    ghost function Hits(ns: seq<string>, q: Product): nat
      reads this
    {
      if Find(q.name) == Some(q) then multiset(ns)[q.name] else 0
    }

    /** `addProducts`: the comma-separated names and prices become a new
        category. Refused, in this order, for a known category, for counts
        that differ, and at the first name already in the supermarket or
        price that does not read as a number; nothing changes when it is
        refused. Names repeated within the new list are not refused.
        `Double.valueOf` is the parameter `parsePrice`. */
    method AddProducts(categoryName: string, productNames: string, productPrices: string,
                       parsePrice: string -> Option<real>) returns (r: Outcome<int>)
      requires Valid()
      modifies this
      ensures Valid()
      ensures var names, prices, known := Split(productNames, ','), Split(productPrices, ','), Names(old(AllProducts()));
        && (r == Thrown(SMException(CategoryDefined)) <==> categoryName in old(productsByCategory))
        && (r == Thrown(SMException(Incompatible)) <==>
             categoryName !in old(productsByCategory) && |names| != |prices|)
        && (r == Thrown(SMException(NamePresent)) <==>
             categoryName !in old(productsByCategory) && |names| == |prices| &&
             exists i :: 0 <= i < |names| && Accepted(names, prices, known, parsePrice, i) && names[i] in known)
        && (r == Thrown(NumberFormat) <==>
             categoryName !in old(productsByCategory) && |names| == |prices| &&
             exists i :: 0 <= i < |names| && Accepted(names, prices, known, parsePrice, i) &&
               names[i] !in known && parsePrice(prices[i]).None?)
        && (r.Done? <==>
             categoryName !in old(productsByCategory) && |names| == |prices| &&
             Accepted(names, prices, known, parsePrice, |names|))
        && (r.Done? ==>
             r.value == |names| && categoryName in productsByCategory &&
             Made(productsByCategory[categoryName], names, prices, parsePrice))
      ensures r.Thrown? ==>
        categories == old(categories) && productsByCategory == old(productsByCategory) &&
        categoryDiscounts == old(categoryDiscounts)
      ensures r.Done? ==>
        categories == old(categories) + [categoryName] &&
        categoryName in productsByCategory &&
        productsByCategory == old(productsByCategory)[categoryName := productsByCategory[categoryName]] &&
        categoryDiscounts == old(categoryDiscounts)[categoryName := [0]] &&
        AllProducts() == old(AllProducts()) + productsByCategory[categoryName] &&
        forall q | q in productsByCategory[categoryName] :: fresh(q) && q.discounts == [0]
    {
      var names := Split(productNames, ',');
      var prices := Split(productPrices, ',');
      if categoryName in productsByCategory {
        return Thrown(SMException(CategoryDefined));
      }
      if |names| != |prices| {
        return Thrown(SMException(Incompatible));
      }
      var made := MakeProducts(names, prices, Names(AllProducts()), parsePrice);
      if made.Thrown? {
        return Thrown(made.failure);
      }
      Register(categoryName, made.value);
      r := Done(|made.value|);
    }

    /** The end of `addProducts`: the new category with its products and
        the history `[0]`. */
    method Register(categoryName: string, listP: seq<Product>)
      requires Valid() && categoryName !in productsByCategory
      requires NoDuplicates(listP) && forall q | q in listP :: q !in AllProducts()
      modifies this
      ensures Valid()
      ensures categories == old(categories) + [categoryName]
      ensures productsByCategory == old(productsByCategory)[categoryName := listP]
      ensures categoryDiscounts == old(categoryDiscounts)[categoryName := [0]]
      ensures AllProducts() == old(AllProducts()) + listP
    {
      var m := productsByCategory[categoryName := listP];
      FlattenOther(categories, productsByCategory, categoryName, listP);
      FlattenConcat(categories, [categoryName], m);
      assert Flatten([categoryName], m) == listP;
      NoDuplicatesConcat(AllProducts(), listP);
      NoDuplicatesAppend(categories, categoryName);
      productsByCategory := m;
      categoryDiscounts := categoryDiscounts[categoryName := [0]];
      categories := categories + [categoryName];
    }

    /** `getPrice`: the price of the product of that name, refused for a
        name no category holds. */
    function GetPrice(productName: string): (r: Outcome<real>)
      reads this
      ensures r.Thrown? <==> productName !in Names(AllProducts())
      ensures r.Thrown? ==> r.failure == SMException(ProductUndefined)
      ensures r.Done? ==> exists q :: q in AllProducts() && q.name == productName && q.price == r.value
    {
      match Find(productName)
      case None => Thrown(SMException(ProductUndefined))
      case Some(q) => Done(q.price)
    }

    /** `setDiscount(percentage, productNames...)`: refused above 40;
        otherwise each listed name that a product has adds the percentage
        to that product's history, and unknown names are skipped. */
    method SetProductsDiscount(percentage: int, productNames: seq<string>) returns (r: Outcome<()>)
      modifies Stock()
      ensures r.Thrown? <==> percentage > MAX_DISCOUNT
      ensures r.Thrown? ==> r.failure == SMException(TooHigh)
      ensures forall q | q in old(AllProducts()) && old(allocated(q)) ::
        q.discounts == old(q.discounts) + Repeat(percentage, if r.Done? then Hits(productNames, q) else 0)
    {
      if percentage > MAX_DISCOUNT {
        return Thrown(SMException(TooHigh));
      }
      var i := 0;
      while i < |productNames|
        invariant i <= |productNames| && unchanged(this)
        invariant forall q | q in old(AllProducts()) && old(allocated(q)) ::
          q.discounts == old(q.discounts) + Repeat(percentage, Hits(productNames[..i], q))
      {
        assert productNames[..i + 1] == productNames[..i] + [productNames[i]];
        HitsSnoc(productNames[..i], productNames[i]);
        RepeatSnoc(percentage);
        DiscountFound(percentage, productNames[i]);
        i := i + 1;
      }
      assert productNames[..i] == productNames;
      r := Done(());
    }

    /** One step of the loop of `setDiscount(percentage, productNames...)`:
        the product found by the name, if any, gets the percentage. */
    method DiscountFound(percentage: int, name: string)
      modifies Stock()
      ensures forall q | q in old(AllProducts()) && old(allocated(q)) ::
        q.discounts == old(q.discounts) + if Find(name) == Some(q) then [percentage] else []
    {
      var t := Find(name);
      if t.Some? {
        t.value.SetDiscount(percentage);
      }
    }

    /** One more listed name reaches one more time the product it finds,
        and no other. */
    lemma HitsSnoc(ns: seq<string>, x: string)
      ensures forall q: Product :: Hits(ns + [x], q) == Hits(ns, q) + if Find(x) == Some(q) then 1 else 0
    {
      assert multiset(ns + [x]) == multiset(ns) + multiset{x};
    }

    /** `setDiscount(categoryName, percentage)`: refused above 40, then
        for an unknown category, changing nothing; otherwise the percentage
        goes at the end of the category's history and is applied to the
        names of the category's products as the product overload does. */
    method SetCategoryDiscount(categoryName: string, percentage: int) returns (r: Outcome<()>)
      requires Valid()
      modifies this, Stock()
      ensures Valid()
      ensures r == if percentage > MAX_DISCOUNT then Thrown(SMException(TooHigh))
        else if categoryName !in old(productsByCategory) then Thrown(SMException(CategoryUndefined))
        else Done(())
      ensures categories == old(categories) && productsByCategory == old(productsByCategory)
      ensures r.Thrown? ==> categoryDiscounts == old(categoryDiscounts)
      ensures r.Done? ==>
        categoryDiscounts == old(categoryDiscounts)[categoryName := old(categoryDiscounts)[categoryName] + [percentage]]
      ensures forall q | q in old(AllProducts()) && old(allocated(q)) ::
        q.discounts == old(q.discounts) +
          Repeat(percentage, if r.Done? then Hits(Names(productsByCategory[categoryName]), q) else 0)
    {
      if percentage > MAX_DISCOUNT {
        return Thrown(SMException(TooHigh));
      }
      if categoryName !in productsByCategory {
        return Thrown(SMException(CategoryUndefined));
      }
      categoryDiscounts := categoryDiscounts[categoryName := categoryDiscounts[categoryName] + [percentage]];
      var _ := SetProductsDiscount(percentage, Names(productsByCategory[categoryName]));
      r := Done(());
    }

    /** `getDiscountHistoryForCategory`: `null` (`None`) for an unknown
        category. */
    function CategoryHistory(categoryName: string): (h: Option<seq<int>>)
      reads this
      requires Valid()
      ensures h.Some? <==> categoryName in productsByCategory
      ensures h.Some? ==> h.value != [] && h.value[0] == 0
    {
      if categoryName in categoryDiscounts then Some(categoryDiscounts[categoryName]) else None
    }

    /** `getDiscountHistoryForProduct`: the history of the product of that
        name; `Optional.get` throws for a name no category holds. */
    function ProductHistory(productName: string): (r: Outcome<seq<int>>)
      reads this, Stock()
      ensures r.Thrown? <==> productName !in Names(AllProducts())
      ensures r.Thrown? ==> r.failure == NoSuchElement
      ensures r.Done? ==> exists q :: q in AllProducts() && q.name == productName && q.discounts == r.value
    {
      match Find(productName)
      case None => Thrown(NoSuchElement)
      case Some(q) => Done(q.discounts)
    }

    // -------------------------------------------------------------------
    // Properties

    /** When no two products share a name, every product is the one the
        search by its name finds. */
    lemma FoundWhenUnique(q: Product)
      requires NoDuplicates(Names(AllProducts())) && q in AllProducts()
      ensures Find(q.name) == Some(q)
    {
      var k :| 0 <= k < |AllProducts()| && AllProducts()[k] == q;
      var j := IndexOf(Names(AllProducts()), q.name).value;
      assert Names(AllProducts())[j] == Names(AllProducts())[k];
    }

    /** When no two products share a name, `setDiscount(p, names...)`
        reaches each product once per listing of its name. */
    lemma ProductsDiscountEach(ns: seq<string>, q: Product)
      requires NoDuplicates(Names(AllProducts())) && q in AllProducts()
      ensures Hits(ns, q) == multiset(ns)[q.name]
    {
      FoundWhenUnique(q);
    }

    /** When no two products share a name, the category overload reaches
        each product of the category once and no other product. */
    lemma CategoryDiscountEach(categoryName: string, q: Product)
      requires Valid() && categoryName in productsByCategory
      requires NoDuplicates(Names(AllProducts())) && q in AllProducts()
      ensures Hits(Names(productsByCategory[categoryName]), q) == if q in productsByCategory[categoryName] then 1 else 0
    {
      FoundWhenUnique(q);
      var l := productsByCategory[categoryName];
      var k :| 0 <= k < |categories| && categories[k] == categoryName;
      FlattenBlock(categories, productsByCategory, k);
      var before, after := Flatten(categories[..k], productsByCategory), Flatten(categories[k + 1..], productsByCategory);
      NamesConcat(before, l);
      NamesConcat(before + l, after);
      BlockOfUnique(Names(before), Names(l), Names(after));
      if q in l {
        var j :| 0 <= j < |l| && l[j] == q;
        UniqueOccurrence(Names(l), j);
      } else {
        assert q in before || q in after;
        assert q.name in Names(before) || q.name in Names(after) by {
          NamesMember(before, q);
          NamesMember(after, q);
        }
      }
    }

    /** Of two products with the same name, the later one is never reached
        by a discount given by names, and so neither by the category
        overload, which lists the category's names: each listing of the
        name goes to the first product instead. */
    lemma LaterNamesakeSkipped(i: nat, j: nat, ns: seq<string>)
      requires Valid() && i < j < |AllProducts()| && AllProducts()[i].name == AllProducts()[j].name
      ensures Hits(ns, AllProducts()[j]) == 0
    {
      var q := AllProducts()[j];
      var k := IndexOf(Names(AllProducts()), q.name).value;
      assert Names(AllProducts())[i] == q.name;
      assert k <= i;
    }
  }

  lemma NamesConcat(a: seq<Product>, b: seq<Product>)
    ensures Names(a + b) == Names(a) + Names(b)
  {
  }

  lemma NamesMember(a: seq<Product>, q: Product)
    ensures q in a ==> q.name in Names(a)
  {
    if q in a {
      var j :| 0 <= j < |a| && a[j] == q;
      assert Names(a)[j] == q.name;
    }
  }

  lemma NoDuplicatesConcat<T>(a: seq<T>, b: seq<T>)
    requires NoDuplicates(a) && NoDuplicates(b) && forall x | x in b :: x !in a
    ensures NoDuplicates(a + b)
  {
    forall i, j | 0 <= i < j < |a + b|
      ensures (a + b)[i] != (a + b)[j]
    {
      if i < |a| <= j {
        assert (a + b)[j] in b;
      }
    }
  }

  /** A block of a list without repetitions has none, and shares nothing
      with the rest of the list. */
  lemma BlockOfUnique<T>(a: seq<T>, l: seq<T>, b: seq<T>)
    requires NoDuplicates(a + l + b)
    ensures NoDuplicates(l)
    ensures forall x | x in l :: x !in a && x !in b
  {
    var s := a + l + b;
    forall i, j | 0 <= i < j < |l|
      ensures l[i] != l[j]
    {
      assert s[|a| + i] == l[i] && s[|a| + j] == l[j];
    }
    forall x | x in l
      ensures x !in a && x !in b
    {
      var j :| 0 <= j < |l| && l[j] == x;
      assert s[|a| + j] == x;
      forall i | 0 <= i < |a|
        ensures a[i] != x
      {
        assert s[i] == a[i];
      }
      forall i | 0 <= i < |b|
        ensures b[i] != x
      {
        assert s[|a| + |l| + i] == b[i];
      }
    }
  }

  /** A value at one position only occurs once. */
  lemma UniqueOccurrence(s: seq<string>, j: nat)
    requires j < |s| && NoDuplicates(s)
    ensures multiset(s)[s[j]] == 1
  {
    assert s == s[..j] + [s[j]] + s[j + 1..];
    assert s[j] !in s[..j] && s[j] !in s[j + 1..];
  }
}
