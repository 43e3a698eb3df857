/** The product response and the columns `parse_api` copies from it into every row
    (`base_res_dict`). */
module Product {
  import opened Values
  import opened Text
  import opened Photos

  /** A release date as `datetime.fromisoformat` reads it from the response. */
  datatype Date = Date(year: nat, month: nat, day: nat) {
    /** Each field within the range its `strftime` directive writes at fixed width. The
        calendar check (no 31 February) is `datetime`'s and is not repeated here. */
    predicate InRange() {
      1 <= month <= 12 && 1 <= day <= 31 && 1000 <= year <= 9999
    }
  }

  /** The fields of the product response that the script reads. `pictures` holds the
      `mainPictureUrl` of each entry of `productTemplateExternalPictures`; an absent
      picture list reads as empty, an absent or empty release date as `None`. */
  datatype ProductDetail = ProductDetail(
    id: string,
    sku: string,
    name: string,
    upperMaterial: string,
    brandName: string,
    category: seq<string>,
    singleGender: string,
    currency: string,
    pictures: seq<string>,
    story: string,
    details: string,
    silhouette: string,
    productType: string,
    color: string,
    releaseDate: Option<Date>)

  /** The columns shared by all rows of one product. Columns the script fills twice
      with the same value (the RU and UA names, descriptions and short descriptions,
      brand and section, parent and display SKU) appear once. */
  datatype BaseRecord = BaseRecord(
    id: string,
    parentSku: string,
    name: string,
    upperMaterial: string,
    brand: string,
    category: string,
    gender: string,
    currency: string,
    photo: Option<string>,
    story: string,
    details: string,
    collection: string,
    productType: string,
    color: string,
    releaseDate: string)

  const NO_INFORMATION: string := "Намає інформації"
  const CATEGORY_SEPARATOR: string := ", "

  /** `%d` and `%m`: the number on two digits, zero-padded. */
  function Pad2(n: nat): (s: string)
    ensures AllDigits(s)
    ensures n < 100 ==> |s| == 2 && ParseDecimal(s) == n
  {
    if n < 10 then
      var s := [Digit(0), Digit(n)];
      assert s[..1] == [Digit(0)] && ParseDecimal([Digit(0)]) == 0;
      s
    else
      DecimalRoundTrip(n);
      Decimal(n)
  }

  /** `strftime("%d.%m.%Y")`: the day, month and year, read back from fixed places. */
  function FormatDate(d: Date): (s: string)
    ensures s != [] && IsDigit(s[0])
    ensures d.InRange() ==> |s| == 10 && s[2] == '.' && s[5] == '.'
                            && AllDigits(s[..2]) && AllDigits(s[3..5]) && AllDigits(s[6..])
                            && ParseDecimal(s[..2]) == d.day && ParseDecimal(s[3..5]) == d.month
                            && ParseDecimal(s[6..]) == d.year
  {
    var day, month, year := Pad2(d.day), Pad2(d.month), Decimal(d.year);
    var s := day + "." + month + "." + year;
    if d.InRange() then
      DecimalRoundTrip(d.year);
      YearDigits(d.year);
      assert s[..2] == day && s[3..5] == month && s[6..] == year;
      s
    else s
  }

  /** `%Y` of a four-digit year has four digits. */
  lemma YearDigits(year: nat)
    requires 1000 <= year <= 9999
    ensures |Decimal(year)| == 4
  {
    assert Decimal(year) == Decimal(year / 1000) + [Digit(year / 100 % 10)]
                            + [Digit(year / 10 % 10)] + [Digit(year % 10)];
  }

  /** The release-date column: the formatted date, or the "no information" text
      exactly when the product has no release date. */
  function ReleaseDate(date: Option<Date>): (s: string)
    ensures s == NO_INFORMATION <==> date.None?
    ensures date.Some? ==> s == FormatDate(date.value)
  {
    match date
    case None => NO_INFORMATION
    case Some(d) =>
      assert !IsDigit(NO_INFORMATION[0]);
      FormatDate(d)
  }

  /** `base_res_dict` once the photo column is known: the pass-through columns, the
      category list joined with ", " and the release date. */
  function BaseRecordOf(p: ProductDetail, photo: Option<string>): (b: BaseRecord)
    ensures b.id == p.id && b.parentSku == p.sku && b.photo == photo
    ensures b.category == Join(p.category, CATEGORY_SEPARATOR)
    ensures b.releaseDate == NO_INFORMATION <==> p.releaseDate.None?
  {
    BaseRecord(
      p.id, p.sku, p.name, p.upperMaterial, p.brandName,
      Join(p.category, CATEGORY_SEPARATOR), p.singleGender, p.currency, photo,
      p.story, p.details, p.silhouette, p.productType, p.color,
      ReleaseDate(p.releaseDate))
  }

  /** `base_res_dict`. Building it raises the IndexError of `get_photo` for a product
      with one or two pictures, and only then; the photo column is empty exactly when
      the product has no pictures. */
  function BaseOf(p: ProductDetail): (r: Outcome<BaseRecord>)
    ensures r.Raised? <==> 0 < |p.pictures| < 3
    ensures r.Raised? ==> r.error == IndexError
    ensures r.Value? ==> && r.value.id == p.id && r.value.parentSku == p.sku
                         && (r.value.photo.None? <==> p.pictures == [])
                         && (r.value.releaseDate == NO_INFORMATION <==> p.releaseDate.None?)
  {
    match Photo(p.pictures, PHOTO_INDEX)
    case Raised(e) => Raised(e)
    case Value(photo) => Value(BaseRecordOf(p, photo))
  }
}
