/**
 * The admin product form: turning the submitted fields into product data, parsing the colour
 * list, validating the result, and filling the form again when a product is opened for editing.
 */
module ProductForm {
  import opened Wrappers
  import opened Text
  import opened Seqs
  import opened Products
  import opened Pricing

  /**
   * The form fields as submitted. The two prices are what `parseFloat` made of their fields and
   * the stock what `parseInt` made of its field (`None` for NaN); the other fields are raw text.
   */
  datatype FormInput = FormInput(
    name: string,
    category: string,
    description: string,
    imageUrl: string,
    originalPrice: Price,
    salePrice: Price,
    colors: string,
    stockQuantity: Option<int>)

  /** What the colour parser can produce: a non-empty, trimmed name without a comma. */
  predicate IsColorToken(c: string) {
    c != "" && IsTrimmed(c) && ',' !in c
  }

  /** `parts.map(p => p.trim())` */
  function TrimAll(parts: seq<string>): (r: seq<string>)
    ensures |r| == |parts|
    ensures forall i :: 0 <= i < |parts| ==> r[i] == Trim(parts[i])
  {
    seq(|parts|, i requires 0 <= i < |parts| => Trim(parts[i]))
  }

  /**
   * `parseColorsInput`: an empty input gives no colours; otherwise the comma-separated pieces,
   * trimmed, with the empty ones dropped, in input order and with duplicates kept.
   */
  function ParseColors(input: string): (colors: seq<string>)
    ensures forall c | c in colors :: IsColorToken(c)
  {
    if input == "" then []
    else Filter(TrimAll(Split(input, ',')), NonEmpty)
  }

  predicate NonEmpty(t: string) {
    t != ""
  }

  /** Each name with one space in front, as `join(', ')` leaves every name after the first. */
  function SpaceEach(cs: seq<string>): (r: seq<string>)
    ensures |r| == |cs|
    ensures forall i :: 0 <= i < |cs| ==> r[i] == " " + cs[i]
  {
    seq(|cs|, i requires 0 <= i < |cs| => " " + cs[i])
  }

  lemma JoinSpaceFirst(x: string, ys: seq<string>)
    ensures Join([" " + x] + ys, ",") == " " + Join([x] + ys, ",")
  {
    if ys != [] {
      assert ([" " + x] + ys)[1..] == ys == ([x] + ys)[1..];
    }
  }

  /** Joining with ", " is joining with "," after putting a space in front of every name but the first. */
  lemma {:induction false} JoinCommaSpace(cs: seq<string>)
    requires cs != []
    ensures Join(cs, ", ") == Join([cs[0]] + SpaceEach(cs[1..]), ",")
  {
    if |cs| > 1 {
      JoinCommaSpace(cs[1..]);
      var tail := SpaceEach(cs[2..]);
      assert cs[1..][1..] == cs[2..];
      assert SpaceEach(cs[1..]) == [" " + cs[1]] + tail;
      JoinSpaceFirst(cs[1], tail);
      assert ([cs[0]] + SpaceEach(cs[1..]))[1..] == SpaceEach(cs[1..]);
    }
  }

  /** The pieces `split(',')` finds in a ", "-joined list of colour names. */
  lemma {:induction false} SplitJoinedColors(cs: seq<string>)
    requires cs != []
    requires forall c | c in cs :: IsColorToken(c)
    ensures Join(cs, ", ") != ""
    ensures Split(Join(cs, ", "), ',') == [cs[0]] + SpaceEach(cs[1..])
  {
    var padded := [cs[0]] + SpaceEach(cs[1..]);
    JoinCommaSpace(cs);
    forall i | 0 <= i < |padded| ensures ',' !in padded[i] {
      assert cs[i] in cs;
      if i > 0 {
        assert padded[i] == " " + cs[i];
      }
    }
    SplitJoin(padded, ',');
    assert cs[0] in cs && padded[0] == cs[0];
    if |padded| > 1 {
      assert |Join(padded, ",")| >= |padded[0]|;
    }
  }

  /** Trimming those pieces gives back the colour names. */
  lemma {:induction false} TrimJoinedColors(cs: seq<string>)
    requires cs != []
    requires forall c | c in cs :: IsColorToken(c)
    ensures TrimAll([cs[0]] + SpaceEach(cs[1..])) == cs
  {
    var padded := [cs[0]] + SpaceEach(cs[1..]);
    forall i | 0 <= i < |padded| ensures Trim(padded[i]) == cs[i] {
      assert cs[i] in cs;
      if i == 0 {
        TrimOfTrimmed(cs[0]);
      } else {
        assert padded[i] == " " + cs[i];
        TrimAfterSpace(cs[i]);
      }
    }
  }

  /**
   * Colours survive being shown as `colors.join(', ')` and parsed again: every list of colour
   * names is given back whole, in order and with its duplicates.
   */
  lemma ColorsRoundTrip(cs: seq<string>)
    requires forall c | c in cs :: IsColorToken(c)
    ensures ParseColors(Join(cs, ", ")) == cs
  {
    if cs != [] {
      SplitJoinedColors(cs);
      TrimJoinedColors(cs);
      FilterAll(cs, NonEmpty);
    }
  }

  /** Opening a product for editing and saving it unchanged leaves its colours as they were. */
  lemma ColorsStableUnderEdit(input: string)
    ensures ParseColors(Join(ParseColors(input), ", ")) == ParseColors(input)
  {
    ColorsRoundTrip(ParseColors(input));
  }

  /** `parseInt(x) || 0`: NaN becomes 0. */
  function StockOrZero(n: Option<int>): int {
    n.GetOr(0)
  }

  /**
   * The product data `handleFormSubmit` builds: name, description and image URL trimmed, category
   * kept as chosen, prices as parsed, colours parsed, stock defaulting to 0.
   */
  function NormalizeForm(f: FormInput): (d: ProductData)
    ensures IsTrimmed(d.name) && IsTrimmed(d.description) && IsTrimmed(d.imageUrl)
    ensures d.category == f.category
    ensures forall c | c in d.colors :: IsColorToken(c)
    ensures f.stockQuantity.None? ==> d.stockQuantity == 0
    ensures d.name == Trim(f.name) && d.description == Trim(f.description) && d.imageUrl == Trim(f.imageUrl)
    ensures d.originalPrice == f.originalPrice && d.salePrice == f.salePrice
    ensures d.colors == ParseColors(f.colors) && d.stockQuantity == f.stockQuantity.GetOr(0)
  {
    ProductData(
      Trim(f.name), f.category, Trim(f.description), Trim(f.imageUrl),
      f.originalPrice, f.salePrice, ParseColors(f.colors), StockOrZero(f.stockQuantity))
  }

  /** The outcome of `validateProductData`. */
  datatype Validation = Valid | Invalid(message: string)

  const NameRequired := "Product name is required."
  const CategoryRequired := "Category is required."
  const DescriptionRequired := "Description is required."
  const ImageUrlRequired := "Valid image URL is required."
  const OriginalPriceRequired := "Valid original price is required."
  const SalePriceRequired := "Valid sale price is required."
  const SaleAboveOriginal := "Sale price cannot be higher than original price."

  /** The validator's messages, in the order its checks run. */
  const Messages := [NameRequired, CategoryRequired, DescriptionRequired, ImageUrlRequired,
                     OriginalPriceRequired, SalePriceRequired, SaleAboveOriginal]

  /** `!(isNaN(p) || p <= 0)` */
  predicate PositivePrice(p: Price) {
    p.Some? && p.value > 0.0
  }

  /** Whether check number `k` of the validator passes, each stated on its own. */
  predicate Check(d: ProductData, isValidUrl: string -> bool, k: nat)
    requires k < |Messages|
  {
    if k == 0 then d.name != ""
    else if k == 1 then d.category != ""
    else if k == 2 then d.description != ""
    else if k == 3 then d.imageUrl != "" && isValidUrl(d.imageUrl)
    else if k == 4 then PositivePrice(d.originalPrice)
    else if k == 5 then PositivePrice(d.salePrice)
    // `sale > original` is false when either is NaN
    else !(d.salePrice.Some? && d.originalPrice.Some? && d.salePrice.value > d.originalPrice.value)
  }

  /**
   * `validateProductData`: the message of the first failing check, or Valid. `isValidUrl` stands
   * for the browser's `new URL` succeeding.
   */
  function ValidateProductData(d: ProductData, isValidUrl: string -> bool): (v: Validation)
    ensures v.Valid? <==>
      && d.name != "" && d.category != "" && d.description != ""
      && d.imageUrl != "" && isValidUrl(d.imageUrl)
      && PositivePrice(d.originalPrice) && PositivePrice(d.salePrice)
      && d.salePrice.value <= d.originalPrice.value
    ensures v.Invalid? ==> v.message in Messages
  {
    if d.name == "" then Invalid(NameRequired)
    else if d.category == "" then Invalid(CategoryRequired)
    else if d.description == "" then Invalid(DescriptionRequired)
    else if d.imageUrl == "" || !isValidUrl(d.imageUrl) then Invalid(ImageUrlRequired)
    else if d.originalPrice.None? || d.originalPrice.value <= 0.0 then Invalid(OriginalPriceRequired)
    else if d.salePrice.None? || d.salePrice.value <= 0.0 then Invalid(SalePriceRequired)
    else if d.salePrice.value > d.originalPrice.value then Invalid(SaleAboveOriginal)
    else Valid
  }

  /** The seven messages are different from each other. */
  lemma MessagesDistinct()
    ensures forall i, j :: 0 <= i < j < |Messages| ==> Messages[i] != Messages[j]
  {
    assert forall i, j :: 0 <= i < j < |Messages| ==> |Messages[i]| != |Messages[j]|;
  }

  /** A rejection names the check that failed, and every check before it passed. */
  lemma FailingCheck(d: ProductData, isValidUrl: string -> bool) returns (n: nat)
    requires ValidateProductData(d, isValidUrl).Invalid?
    ensures n < |Messages| && ValidateProductData(d, isValidUrl) == Invalid(Messages[n])
    ensures !Check(d, isValidUrl, n) && forall j :: 0 <= j < n ==> Check(d, isValidUrl, j)
  {
    if d.name == "" {
      n := 0;
    } else if d.category == "" {
      n := 1;
    } else if d.description == "" {
      n := 2;
    } else if d.imageUrl == "" || !isValidUrl(d.imageUrl) {
      n := 3;
    } else if !PositivePrice(d.originalPrice) {
      n := 4;
    } else if !PositivePrice(d.salePrice) {
      n := 5;
    } else {
      n := 6;
    }
  }

  /**
   * The validator reports message `k` exactly when check `k` fails and every earlier check
   * passes: a missing name is reported even when the prices are bad as well.
   */
  lemma ValidateReportsFirstFailure(d: ProductData, isValidUrl: string -> bool, k: nat)
    requires k < |Messages|
    ensures ValidateProductData(d, isValidUrl) == Invalid(Messages[k])
            <==> !Check(d, isValidUrl, k) && forall j :: 0 <= j < k ==> Check(d, isValidUrl, j)
  {
    if ValidateProductData(d, isValidUrl).Invalid? {
      var n := FailingCheck(d, isValidUrl);
      MessagesDistinct();
      if k < n {
        assert Check(d, isValidUrl, k);
      } else if k > n {
        assert !Check(d, isValidUrl, n);
      }
    } else {
      assert Check(d, isValidUrl, k);
    }
  }

  /** A product that passes validation has a card discount between 0 and 100. */
  lemma ValidatedDiscountInRange(d: ProductData, isValidUrl: string -> bool)
    requires ValidateProductData(d, isValidUrl).Valid?
    ensures 0 <= CardDiscount(d.originalPrice, d.salePrice) <= 100
  {
    if d.salePrice.value < d.originalPrice.value {
      DiscountInRange(d.originalPrice.value, d.salePrice.value);
    } else {
      EqualPricesNoDiscount(d.salePrice);
    }
  }

  /**
   * `editProduct` filling the form from a product: text fields as stored, a price field empty
   * (NaN once parsed) when the price is zero or missing, colours joined with ", ", the stock field
   * empty when the stock is zero.
   */
  function EditForm(d: ProductData): (f: FormInput)
    ensures f.name == d.name && f.category == d.category
    ensures f.description == d.description && f.imageUrl == d.imageUrl
    ensures Truthy(d.originalPrice) ==> f.originalPrice == d.originalPrice
    ensures !Truthy(d.originalPrice) ==> f.originalPrice.None?
    ensures Truthy(d.salePrice) ==> f.salePrice == d.salePrice
    ensures !Truthy(d.salePrice) ==> f.salePrice.None?
    ensures f.colors == Join(d.colors, ", ")
    ensures StockOrZero(f.stockQuantity) == d.stockQuantity
  {
    FormInput(
      d.name, d.category, d.description, d.imageUrl,
      if Truthy(d.originalPrice) then d.originalPrice else None,
      if Truthy(d.salePrice) then d.salePrice else None,
      Join(d.colors, ", "),
      if d.stockQuantity != 0 then Some(d.stockQuantity) else None)
  }

  /**
   * Opening a saved product for editing and submitting the form untouched reproduces its data
   * field for field.
   */
  lemma EditResubmitRoundTrip(f: FormInput, isValidUrl: string -> bool)
    requires ValidateProductData(NormalizeForm(f), isValidUrl).Valid?
    ensures NormalizeForm(EditForm(NormalizeForm(f))) == NormalizeForm(f)
  {
    var d := NormalizeForm(f);
    TrimOfTrimmed(d.name);
    TrimOfTrimmed(d.description);
    TrimOfTrimmed(d.imageUrl);
    ColorsRoundTrip(d.colors);
  }
}
