/** The validation rules of the menu-item create page: what each submitted
    field must satisfy, the field-scoped error recorded when it does not, and
    the item that is stored when every rule holds. */
module CreatePage {
  import opened FormText
  import opened NumberParsing

  /** ItemModel as the page holds it. Text fields may be null. */
  datatype Item = Item(
    id: Option<string>,
    title: Option<string>,
    description: Option<string>,
    price: real,
    rating: real,
    categoryId: Option<string>,
    sellerName: Option<string>,
    sellerPic: Option<string>,
    sellerTell: Int64,
    picUrl: seq<string>,
    size: seq<string>)

  /** The skeleton shown on an empty form: nothing filled in, and empty image and size lists. */
  function EmptyItem(): Item {
    Item(None, None, None, 0.0, 0.0, None, None, None, 0, [], [])
  }

  /** The three values the handler reads from the raw request form rather than
      from the bound item; None when the form has no such key. */
  datatype RawForm = RawForm(picUrl: Option<string>, size: Option<string>, sellerTell: Option<string>)

  /** One entry of ModelState: the key of the offending input and the message shown beside it. */
  datatype ModelError = ModelError(key: string, message: string)

  /** The inputs that carry a business rule, in the order the handler checks them. */
  datatype Field = Title | Description | Price | Rating | CategoryId | SellerName
                 | SellerPic | PicUrl | Size | SellerTell

  const AllFields: seq<Field> :=
    [Title, Description, Price, Rating, CategoryId, SellerName, SellerPic, PicUrl, Size, SellerTell]

  /** The key of the bound identifier, whose binding errors the handler discards. */
  const IdKey: string := "Item.Id"

  function Key(f: Field): string {
    match f
    case Title => "Item.Title"
    case Description => "Item.Description"
    case Price => "Item.Price"
    case Rating => "Item.Rating"
    case CategoryId => "Item.CategoryId"
    case SellerName => "Item.SellerName"
    case SellerPic => "Item.SellerPic"
    case PicUrl => "Item.PicUrl"
    case Size => "Item.Size"
    case SellerTell => "Item.SellerTell"
  }

  const TitleRequired: string := "Tên món ăn là bắt buộc."
  const DescriptionRequired: string := "Mô tả là bắt buộc."
  const PriceNotPositive: string := "Giá phải lớn hơn 0."
  const RatingOutOfRange: string := "Đánh giá phải từ 0 đến 5."
  const CategoryRequired: string := "Danh mục là bắt buộc."
  const SellerNameRequired: string := "Tên người bán là bắt buộc."
  const SellerPicRequired: string := "URL hình ảnh người bán là bắt buộc."
  const PicUrlNoneGiven: string := "Cần ít nhất một URL hình ảnh sản phẩm."
  const PicUrlRequired: string := "URL hình ảnh sản phẩm là bắt buộc."
  const SizeNoneGiven: string := "Cần ít nhất một kích thước."
  const SizeRequired: string := "Kích thước là bắt buộc."
  const SellerTellInvalid: string := "Số điện thoại không hợp lệ. Vui lòng nhập số."
  const SellerTellRequired: string := "Số điện thoại là bắt buộc."

  /** The list field parser: split on ',', drop the zero-length pieces, trim the rest. */
  function ParseList(raw: string): seq<string> {
    SplitTrim(raw, ',')
  }

  /** The errors the handler records for one field, each test as the handler writes it. */
  function FieldErrors(item: Item, form: RawForm, f: Field): seq<ModelError> {
    match f
    case Title => if IsNullOrWhiteSpace(item.title) then [ModelError(Key(Title), TitleRequired)] else []
    case Description =>
      if IsNullOrWhiteSpace(item.description) then [ModelError(Key(Description), DescriptionRequired)] else []
    case Price => if item.price <= 0.0 then [ModelError(Key(Price), PriceNotPositive)] else []
    case Rating =>
      if item.rating < 0.0 || item.rating > 5.0 then [ModelError(Key(Rating), RatingOutOfRange)] else []
    case CategoryId =>
      if IsNullOrWhiteSpace(item.categoryId) then [ModelError(Key(CategoryId), CategoryRequired)] else []
    case SellerName =>
      if IsNullOrWhiteSpace(item.sellerName) then [ModelError(Key(SellerName), SellerNameRequired)] else []
    case SellerPic =>
      if IsNullOrEmpty(item.sellerPic) then [ModelError(Key(SellerPic), SellerPicRequired)] else []
    case PicUrl => ListErrors(form.picUrl, Key(PicUrl), PicUrlRequired, PicUrlNoneGiven)
    case Size => ListErrors(form.size, Key(Size), SizeRequired, SizeNoneGiven)
    case SellerTell => PhoneErrors(form.sellerTell)
  }

  /** A comma-separated list field: required when absent or empty, and at
      least one entry once parsed. */
  function ListErrors(raw: Option<string>, key: string, required: string, noneGiven: string): seq<ModelError> {
    if IsNullOrEmpty(raw) then [ModelError(key, required)]
    else if ParseList(raw.value) == [] then [ModelError(key, noneGiven)]
    else []
  }

  /** The phone number field: required when absent or empty, invalid when it
      does not parse as a long. */
  function PhoneErrors(raw: Option<string>): seq<ModelError> {
    if IsNullOrEmpty(raw) then [ModelError(Key(SellerTell), SellerTellRequired)]
    else if TryParseInt64(raw.value).None? then [ModelError(Key(SellerTell), SellerTellInvalid)]
    else []
  }

  /** The errors that errs gives for each of the fields, one field after another. */
  function Collect(errs: Field -> seq<ModelError>, fields: seq<Field>): seq<ModelError> {
    if fields == [] then []
    else Collect(errs, fields[..|fields| - 1]) + errs(fields[|fields| - 1])
  }

  /** The errors recorded for the given fields, one field after another. */
  function ErrorsOver(item: Item, form: RawForm, fields: seq<Field>): seq<ModelError> {
    Collect(f => FieldErrors(item, form, f), fields)
  }

  /** Everything the business rules record for a submission, in checking order;
      every rule runs whatever the earlier ones found. */
  function BusinessErrors(item: Item, form: RawForm): seq<ModelError> {
    ErrorsOver(item, form, AllFields)
  }

  /** Collecting over all fields appends the errors of each field in checking order. */
  lemma CollectInOrder(errs: Field -> seq<ModelError>)
    ensures Collect(errs, AllFields) ==
      errs(Title) + errs(Description) + errs(Price) + errs(Rating) + errs(CategoryId)
      + errs(SellerName) + errs(SellerPic) + errs(PicUrl) + errs(Size) + errs(SellerTell)
  {
    var fs: seq<Field> := [];
    ghost var e: seq<ModelError> := [];
    assert (fs + [Title])[..|fs|] == fs;
    fs, e := fs + [Title], e + errs(Title);
    assert Collect(errs, fs) == e;
    assert (fs + [Description])[..|fs|] == fs;
    fs, e := fs + [Description], e + errs(Description);
    assert Collect(errs, fs) == e;
    assert (fs + [Price])[..|fs|] == fs;
    fs, e := fs + [Price], e + errs(Price);
    assert Collect(errs, fs) == e;
    assert (fs + [Rating])[..|fs|] == fs;
    fs, e := fs + [Rating], e + errs(Rating);
    assert Collect(errs, fs) == e;
    assert (fs + [CategoryId])[..|fs|] == fs;
    fs, e := fs + [CategoryId], e + errs(CategoryId);
    assert Collect(errs, fs) == e;
    assert (fs + [SellerName])[..|fs|] == fs;
    fs, e := fs + [SellerName], e + errs(SellerName);
    assert Collect(errs, fs) == e;
    assert (fs + [SellerPic])[..|fs|] == fs;
    fs, e := fs + [SellerPic], e + errs(SellerPic);
    assert Collect(errs, fs) == e;
    assert (fs + [PicUrl])[..|fs|] == fs;
    fs, e := fs + [PicUrl], e + errs(PicUrl);
    assert Collect(errs, fs) == e;
    assert (fs + [Size])[..|fs|] == fs;
    fs, e := fs + [Size], e + errs(Size);
    assert Collect(errs, fs) == e;
    assert (fs + [SellerTell])[..|fs|] == fs;
    fs, e := fs + [SellerTell], e + errs(SellerTell);
    assert Collect(errs, fs) == e;
    assert fs == AllFields;
  }

  /** The business errors are the checks on the bound fields followed by those
      on the three raw form values, field by field in checking order. */
  lemma BusinessErrorsInOrder(item: Item, form: RawForm)
    ensures BusinessErrors(item, form) ==
      FieldErrors(item, form, Title) + FieldErrors(item, form, Description)
      + FieldErrors(item, form, Price) + FieldErrors(item, form, Rating)
      + FieldErrors(item, form, CategoryId) + FieldErrors(item, form, SellerName)
      + FieldErrors(item, form, SellerPic) + FieldErrors(item, form, PicUrl)
      + FieldErrors(item, form, Size) + FieldErrors(item, form, SellerTell)
  {
    CollectInOrder(f => FieldErrors(item, form, f));
  }

  /** The item after the handler has assigned the parsed lists and phone number;
      a list or number whose raw value is missing, or a number that does not
      parse, keeps the bound value. */
  function Populate(item: Item, form: RawForm): Item {
    var tell := if IsNullOrEmpty(form.sellerTell) then None else TryParseInt64(form.sellerTell.value);
    item.(picUrl := if IsNullOrEmpty(form.picUrl) then item.picUrl else ParseList(form.picUrl.value),
          size := if IsNullOrEmpty(form.size) then item.size else ParseList(form.size.value),
          sellerTell := if tell.Some? then tell.value else item.sellerTell)
  }

  /** ModelState.Remove(key): drops the errors recorded under key. */
  function WithoutKey(errors: seq<ModelError>, key: string): (r: seq<ModelError>)
    ensures forall e :: e in r <==> e in errors && e.key != key
  {
    if errors == [] then []
    else (if errors[0].key == key then [] else [errors[0]]) + WithoutKey(errors[1..], key)
  }

  // ---------------------------------------------------------------------------
  // What each rule demands, stated independently of how the handler tests it.

  /** Present and holding at least one character that is not white space. */
  predicate HasVisibleText(s: Option<string>) {
    s.Some? && exists i :: 0 <= i < |s.value| && !IsWhiteSpace(s.value[i])
  }

  /** Present and holding at least one character other than a comma. */
  predicate HasListEntry(s: Option<string>) {
    s.Some? && exists i :: 0 <= i < |s.value| && s.value[i] != ','
  }

  /** Field f of the submission meets its rule. */
  predicate Satisfies(item: Item, form: RawForm, f: Field) {
    match f
    case Title => HasVisibleText(item.title)
    case Description => HasVisibleText(item.description)
    case Price => item.price > 0.0
    case Rating => 0.0 <= item.rating <= 5.0
    case CategoryId => HasVisibleText(item.categoryId)
    case SellerName => HasVisibleText(item.sellerName)
    case SellerPic => item.sellerPic.Some? && item.sellerPic.value != ""
    case PicUrl => HasListEntry(form.picUrl)
    case Size => HasListEntry(form.size)
    case SellerTell => form.sellerTell.Some? && TryParseInt64(form.sellerTell.value).Some?
  }

  /** The number of recorded errors under key. */
  function CountKey(errors: seq<ModelError>, key: string): nat {
    if errors == [] then 0 else (if errors[0].key == key then 1 else 0) + CountKey(errors[1..], key)
  }

  // ---------------------------------------------------------------------------
  // Lemmas

  lemma KeyInjective(f: Field, g: Field)
    ensures Key(f) == Key(g) <==> f == g
  {
    if f != g {
      var a, b := Key(f), Key(g);
      if |a| == |b| {
        assert a[5] != b[5] || a[6] != b[6] || a[7] != b[7] || a[12] != b[12];
      }
    }
  }

  /** A comma-list field records exactly one of its two messages, or none:
      "required" when the raw value is absent or empty, "at least one" when it
      holds commas only, and nothing when it holds any other character. */
  lemma ListErrorsCases(raw: Option<string>, key: string, required: string, noneGiven: string)
    ensures IsNullOrEmpty(raw) ==> ListErrors(raw, key, required, noneGiven) == [ModelError(key, required)]
    ensures !IsNullOrEmpty(raw) && !HasListEntry(raw) ==>
      ListErrors(raw, key, required, noneGiven) == [ModelError(key, noneGiven)]
    ensures HasListEntry(raw) <==> ListErrors(raw, key, required, noneGiven) == []
  {
    if raw.Some? {
      SplitTrimEmptyIff(raw.value, ',');
    }
  }

  /** Each field records at most one error, under its own key, and records one
      exactly when it breaks its rule. */
  lemma FieldErrorsIff(item: Item, form: RawForm, f: Field)
    ensures |FieldErrors(item, form, f)| <= 1
    ensures forall e :: e in FieldErrors(item, form, f) ==> e.key == Key(f)
    ensures FieldErrors(item, form, f) == [] <==> Satisfies(item, form, f)
  {
    match f
    case PicUrl => ListErrorsCases(form.picUrl, Key(PicUrl), PicUrlRequired, PicUrlNoneGiven);
    case Size => ListErrorsCases(form.size, Key(Size), SizeRequired, SizeNoneGiven);
    case SellerTell => if form.sellerTell == Some("") { EmptyTextRejected(); }
    case _ =>
  }

  lemma {:induction false} CountKeyAppend(a: seq<ModelError>, b: seq<ModelError>, key: string)
    ensures CountKey(a + b, key) == CountKey(a, key) + CountKey(b, key)
  {
    if a != [] {
      var ab := a + b;
      assert ab[0] == a[0] && ab[1..] == a[1..] + b;
      CountKeyAppend(a[1..], b, key);
      assert CountKey(ab, key) == (if a[0].key == key then 1 else 0) + CountKey(a[1..] + b, key);
    } else {
      assert a + b == b;
    }
  }

  lemma {:induction false} CountKeyOne(item: Item, form: RawForm, g: Field, f: Field)
    ensures CountKey(FieldErrors(item, form, g), Key(f)) == if f == g && !Satisfies(item, form, f) then 1 else 0
  {
    var es := FieldErrors(item, form, g);
    FieldErrorsIff(item, form, g);
    KeyInjective(f, g);
    if es != [] {
      assert es[0] in es;
      assert es[1..] == [];
    }
  }

  /** Over a list of distinct fields, each field carries one error if it is in
      the list and breaks its rule, and none otherwise. */
  lemma {:induction false} CountKeyOver(item: Item, form: RawForm, fields: seq<Field>, f: Field)
    requires forall i, j :: 0 <= i < j < |fields| ==> fields[i] != fields[j]
    ensures CountKey(ErrorsOver(item, form, fields), Key(f)) ==
      if f in fields && !Satisfies(item, form, f) then 1 else 0
  {
    if fields != [] {
      var init, last := fields[..|fields| - 1], fields[|fields| - 1];
      CountKeyAppend(ErrorsOver(item, form, init), FieldErrors(item, form, last), Key(f));
      CountKeyOne(item, form, last, f);
      CountKeyOver(item, form, init, f);
      assert fields == init + [last];
      assert f in fields <==> f == last || f in init;
      assert last !in init;
    }
  }

  lemma {:induction false} ErrorsOverKeys(item: Item, form: RawForm, fields: seq<Field>)
    ensures forall e :: e in ErrorsOver(item, form, fields) ==> exists f :: f in fields && e.key == Key(f)
  {
    if fields != [] {
      var init, last := fields[..|fields| - 1], fields[|fields| - 1];
      FieldErrorsIff(item, form, last);
      ErrorsOverKeys(item, form, init);
      assert fields == init + [last];
    }
  }

  lemma EveryFieldChecked(f: Field)
    ensures f in AllFields
  {
  }

  /** Errors accumulate rather than stopping at the first: every field that
      breaks its rule carries exactly one error, every field that meets it
      carries none, and no error is recorded under any other key. */
  lemma ErrorsAccumulate(item: Item, form: RawForm)
    ensures forall f ::
      CountKey(BusinessErrors(item, form), Key(f)) == (if Satisfies(item, form, f) then 0 else 1)
    ensures forall e :: e in BusinessErrors(item, form) ==> exists f :: e.key == Key(f)
  {
    forall f
      ensures CountKey(BusinessErrors(item, form), Key(f)) == if Satisfies(item, form, f) then 0 else 1
    {
      EveryFieldChecked(f);
      CountKeyOver(item, form, AllFields, f);
    }
    ErrorsOverKeys(item, form, AllFields);
  }

  lemma {:induction false} ErrorsOverEmptyIff(item: Item, form: RawForm, fields: seq<Field>)
    ensures ErrorsOver(item, form, fields) == [] <==> forall f :: f in fields ==> Satisfies(item, form, f)
  {
    if fields != [] {
      var init, last := fields[..|fields| - 1], fields[|fields| - 1];
      FieldErrorsIff(item, form, last);
      ErrorsOverEmptyIff(item, form, init);
      assert fields == init + [last];
    }
  }

  /** A submission records no business error exactly when every field meets its rule. */
  lemma NoErrorsIffAllRulesHold(item: Item, form: RawForm)
    ensures BusinessErrors(item, form) == [] <==> forall f :: Satisfies(item, form, f)
  {
    ErrorsOverEmptyIff(item, form, AllFields);
    forall f ensures f in AllFields { EveryFieldChecked(f); }
  }

  /** The image list: three exclusive outcomes, never both messages. */
  lemma PicUrlCases(item: Item, form: RawForm)
    ensures IsNullOrEmpty(form.picUrl) ==>
      FieldErrors(item, form, PicUrl) == [ModelError("Item.PicUrl", PicUrlRequired)]
    ensures !IsNullOrEmpty(form.picUrl) && !HasListEntry(form.picUrl) ==>
      FieldErrors(item, form, PicUrl) == [ModelError("Item.PicUrl", PicUrlNoneGiven)]
      && Populate(item, form).picUrl == []
    ensures HasListEntry(form.picUrl) ==>
      FieldErrors(item, form, PicUrl) == []
      && Populate(item, form).picUrl == ParseList(form.picUrl.value)
      && |Populate(item, form).picUrl| == RunCount(form.picUrl.value, ',') >= 1
  {
    ListErrorsCases(form.picUrl, Key(PicUrl), PicUrlRequired, PicUrlNoneGiven);
  }

  /** The size list follows the same three-way rule with its own messages. */
  lemma SizeCases(item: Item, form: RawForm)
    ensures IsNullOrEmpty(form.size) ==>
      FieldErrors(item, form, Size) == [ModelError("Item.Size", SizeRequired)]
    ensures !IsNullOrEmpty(form.size) && !HasListEntry(form.size) ==>
      FieldErrors(item, form, Size) == [ModelError("Item.Size", SizeNoneGiven)]
      && Populate(item, form).size == []
    ensures HasListEntry(form.size) ==>
      FieldErrors(item, form, Size) == []
      && Populate(item, form).size == ParseList(form.size.value)
      && |Populate(item, form).size| == RunCount(form.size.value, ',') >= 1
  {
    ListErrorsCases(form.size, Key(Size), SizeRequired, SizeNoneGiven);
  }

  /** The phone number: required when missing, stored as the parsed long when
      it parses, and otherwise reported invalid with the bound value kept. */
  lemma SellerTellCases(item: Item, form: RawForm)
    ensures IsNullOrEmpty(form.sellerTell) ==>
      FieldErrors(item, form, SellerTell) == [ModelError("Item.SellerTell", SellerTellRequired)]
      && Populate(item, form).sellerTell == item.sellerTell
    ensures form.sellerTell.Some? && TryParseInt64(form.sellerTell.value).Some? ==>
      FieldErrors(item, form, SellerTell) == []
      && Populate(item, form).sellerTell == TryParseInt64(form.sellerTell.value).value
    ensures !IsNullOrEmpty(form.sellerTell) && TryParseInt64(form.sellerTell.value).None? ==>
      FieldErrors(item, form, SellerTell) == [ModelError("Item.SellerTell", SellerTellInvalid)]
      && Populate(item, form).sellerTell == item.sellerTell
  {
    if form.sellerTell == Some("") {
      EmptyTextRejected();
    }
  }

  /** A phone number typed with its leading zero is accepted and stored without it. */
  lemma SellerTellLosesLeadingZero(item: Item, form: RawForm)
    requires form.sellerTell == Some("0912345678")
    ensures FieldErrors(item, form, SellerTell) == []
    ensures Populate(item, form).sellerTell == 912345678
  {
    PhoneNumberExample();
    SellerTellCases(item, form);
  }

  /** Blank text fails the title, description, category and seller-name rules,
      while the seller picture is only required to be non-empty, so a blank
      one passes; a rating of exactly 0 or 5 passes and a price of 0 fails. */
  lemma BoundaryCases(item: Item, form: RawForm)
    ensures item.title == Some(" ") ==> !Satisfies(item, form, Title)
    ensures item.sellerPic == Some(" ") ==> FieldErrors(item, form, SellerPic) == []
    ensures item.rating == 0.0 || item.rating == 5.0 ==> FieldErrors(item, form, Rating) == []
    ensures item.price == 0.0 ==> FieldErrors(item, form, Price) == [ModelError("Item.Price", PriceNotPositive)]
  {
    if item.title == Some(" ") {
      assert !IsWhiteSpace(item.title.value[0]) ==> HasVisibleText(item.title);
    }
  }

  /** The item that reaches the store when no rule is broken: every required
      text present, price positive, rating within [0, 5], at least one image
      and one size — as many entries as comma-separated runs of the raw text
      (StoredListEntries adds that none holds a comma or surrounding white
      space) — and the parsed phone number; every other field is the bound one. */
  lemma StoredItem(item: Item, form: RawForm)
    requires BusinessErrors(item, form) == []
    ensures var stored := Populate(item, form);
      HasVisibleText(stored.title) && HasVisibleText(stored.description)
      && HasVisibleText(stored.categoryId) && HasVisibleText(stored.sellerName)
      && stored.sellerPic.Some? && stored.sellerPic.value != ""
      && stored.price > 0.0 && 0.0 <= stored.rating <= 5.0
    ensures var stored := Populate(item, form);
      form.picUrl.Some? && stored.picUrl == ParseList(form.picUrl.value)
      && 1 <= |stored.picUrl| == RunCount(form.picUrl.value, ',')
      && form.size.Some? && stored.size == ParseList(form.size.value)
      && 1 <= |stored.size| == RunCount(form.size.value, ',')
    ensures var stored := Populate(item, form);
      form.sellerTell.Some? && TryParseInt64(form.sellerTell.value) == Some(stored.sellerTell)
    ensures var stored := Populate(item, form);
      stored.id == item.id && stored.title == item.title && stored.description == item.description
      && stored.price == item.price && stored.rating == item.rating && stored.categoryId == item.categoryId
      && stored.sellerName == item.sellerName && stored.sellerPic == item.sellerPic
  {
    NoErrorsIffAllRulesHold(item, form);
    assert Satisfies(item, form, Title) && Satisfies(item, form, Description);
    assert Satisfies(item, form, CategoryId) && Satisfies(item, form, SellerName);
    assert Satisfies(item, form, SellerPic) && Satisfies(item, form, Price) && Satisfies(item, form, Rating);
    assert Satisfies(item, form, PicUrl) && Satisfies(item, form, Size) && Satisfies(item, form, SellerTell);
    PicUrlCases(item, form);
    SizeCases(item, form);
    SellerTellCases(item, form);
  }

  /** The entries of both stored lists hold no comma and no surrounding white space. */
  lemma StoredListEntries(item: Item, form: RawForm)
    requires BusinessErrors(item, form) == []
    ensures var stored := Populate(item, form);
      forall k :: 0 <= k < |stored.picUrl| ==> ',' !in stored.picUrl[k] && IsTrimmed(stored.picUrl[k])
    ensures var stored := Populate(item, form);
      forall k :: 0 <= k < |stored.size| ==> ',' !in stored.size[k] && IsTrimmed(stored.size[k])
  {
    NoErrorsIffAllRulesHold(item, form);
    assert Satisfies(item, form, PicUrl) && Satisfies(item, form, Size);
    PicUrlCases(item, form);
    SizeCases(item, form);
  }

  /** Binding errors under the identifier's key never hold back validation:
      once they are removed, only errors under other keys remain. */
  lemma {:induction false} IdErrorsIgnored(errors: seq<ModelError>)
    requires forall e :: e in errors ==> e.key == IdKey
    ensures WithoutKey(errors, IdKey) == []
  {
    if errors != [] {
      IdErrorsIgnored(errors[1..]);
    }
  }
}
