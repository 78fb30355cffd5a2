/** The create page as an object: its bound item, the category titles shown in
    the selector, its ModelState error list, and the remote service it calls. */
module CreateHandler {
  import opened FormText
  import opened NumberParsing
  import opened CreatePage

  /** The remote item service, reduced to what the page can observe: the
      category titles it returns and the items handed to it for creation, in
      call order. */
  class FirebaseService {
    var categoryTitles: map<string, string>
    var createdItems: seq<Item>

    constructor (titles: map<string, string>)
      ensures categoryTitles == titles && createdItems == []
    {
      categoryTitles := titles;
      createdItems := [];
    }

    method GetCategoryTitlesAsync() returns (titles: map<string, string>)
      ensures titles == categoryTitles
    {
      titles := categoryTitles;
    }

    method CreateItemAsync(item: Item)
      modifies this
      ensures createdItems == old(createdItems) + [item]
      ensures categoryTitles == old(categoryTitles)
    {
      createdItems := createdItems + [item];
    }
  }

  /** What a handler answers: the same page shown again, or a redirect to the listing. */
  datatype PageResult = Page | RedirectToIndex

  /** The first seven business rules of the create handler, on the values
      bound to the item, in the order it checks them: each failing rule
      appends its error, and none stops the others. */
  method CheckBoundFields(item: Item, form: RawForm) returns (errors: seq<ModelError>)
    ensures errors == FieldErrors(item, form, Title) + FieldErrors(item, form, Description)
      + FieldErrors(item, form, Price) + FieldErrors(item, form, Rating)
      + FieldErrors(item, form, CategoryId) + FieldErrors(item, form, SellerName)
      + FieldErrors(item, form, SellerPic)
  {
    errors := [];

    if IsNullOrWhiteSpace(item.title) {
      errors := errors + [ModelError("Item.Title", TitleRequired)];
    }
    ghost var expected := FieldErrors(item, form, Title);
    assert errors == expected;

    if IsNullOrWhiteSpace(item.description) {
      errors := errors + [ModelError("Item.Description", DescriptionRequired)];
    }
    expected := expected + FieldErrors(item, form, Description);
    assert errors == expected;

    if item.price <= 0.0 {
      errors := errors + [ModelError("Item.Price", PriceNotPositive)];
    }
    expected := expected + FieldErrors(item, form, Price);
    assert errors == expected;

    if item.rating < 0.0 || item.rating > 5.0 {
      errors := errors + [ModelError("Item.Rating", RatingOutOfRange)];
    }
    expected := expected + FieldErrors(item, form, Rating);
    assert errors == expected;

    if IsNullOrWhiteSpace(item.categoryId) {
      errors := errors + [ModelError("Item.CategoryId", CategoryRequired)];
    }
    expected := expected + FieldErrors(item, form, CategoryId);
    assert errors == expected;

    if IsNullOrWhiteSpace(item.sellerName) {
      errors := errors + [ModelError("Item.SellerName", SellerNameRequired)];
    }
    expected := expected + FieldErrors(item, form, SellerName);
    assert errors == expected;

    if IsNullOrEmpty(item.sellerPic) {
      errors := errors + [ModelError("Item.SellerPic", SellerPicRequired)];
    }
    expected := expected + FieldErrors(item, form, SellerPic);
    assert errors == expected;
  }

  /** One comma-list field read from the raw form (the image list and the
      size list run the same code with their own key and messages): an absent
      or empty value is required, otherwise the value is split and trimmed into
      the item, and an empty result asks for at least one entry. */
  method ReadListField(raw: Option<string>, key: string, required: string, noneGiven: string,
                       before: seq<ModelError>, current: seq<string>)
    returns (errors: seq<ModelError>, list: seq<string>)
    ensures errors == before + ListErrors(raw, key, required, noneGiven)
    ensures list == if IsNullOrEmpty(raw) then current else ParseList(raw.value)
  {
    errors, list := before, current;
    if !IsNullOrEmpty(raw) {
      list := ParseList(raw.value);
      if |list| == 0 {
        errors := errors + [ModelError(key, noneGiven)];
      }
    } else {
      errors := errors + [ModelError(key, required)];
    }
  }

  /** The phone number read from the raw form: required when absent or empty,
      stored when long.TryParse accepts it, and reported invalid otherwise,
      the bound value being kept in both failing cases. */
  method ReadSellerTell(raw: Option<string>, before: seq<ModelError>, current: Int64)
    returns (errors: seq<ModelError>, tell: Int64)
    ensures errors == before + PhoneErrors(raw)
    ensures tell == if IsNullOrEmpty(raw) || TryParseInt64(raw.value).None? then current
                    else TryParseInt64(raw.value).value
  {
    errors, tell := before, current;
    if !IsNullOrEmpty(raw) {
      var sellerTell := TryParseInt64(raw.value);
      if sellerTell.Some? {
        tell := sellerTell.value;
      } else {
        errors := errors + [ModelError("Item.SellerTell", SellerTellInvalid)];
      }
    } else {
      errors := errors + [ModelError("Item.SellerTell", SellerTellRequired)];
    }
  }

  /** The last three business rules, on values read from the raw form: the
      image and size lists are parsed into the item, then the phone number. */
  method ParseFormFields(item: Item, form: RawForm, before: seq<ModelError>)
    returns (errors: seq<ModelError>, populated: Item)
    ensures errors == before + FieldErrors(item, form, PicUrl) + FieldErrors(item, form, Size)
      + FieldErrors(item, form, SellerTell)
    ensures populated == Populate(item, form)
  {
    var picUrl, size, sellerTell;
    errors, picUrl := ReadListField(form.picUrl, "Item.PicUrl", PicUrlRequired, PicUrlNoneGiven, before, item.picUrl);
    errors, size := ReadListField(form.size, "Item.Size", SizeRequired, SizeNoneGiven, errors, item.size);
    errors, sellerTell := ReadSellerTell(form.sellerTell, errors, item.sellerTell);
    populated := item.(picUrl := picUrl, size := size, sellerTell := sellerTell);
  }

  class CreateModel {
    const firebaseService: FirebaseService
    var item: Item
    var categoryTitles: map<string, string>
    var modelState: seq<ModelError>

    /** One page object per request, after model binding has filled in the
        item and recorded any binding errors. */
    constructor (service: FirebaseService, bound: Item, bindingErrors: seq<ModelError>)
      ensures firebaseService == service && item == bound
      ensures modelState == bindingErrors && categoryTitles == map[]
    {
      firebaseService := service;
      item := bound;
      modelState := bindingErrors;
      categoryTitles := map[];
    }

    /** Shows the empty form: a blank item and the current category titles. */
    method OnGetAsync()
      modifies this
      ensures item == EmptyItem()
      ensures categoryTitles == firebaseService.categoryTitles
      ensures modelState == old(modelState)
    {
      item := EmptyItem();
      categoryTitles := firebaseService.GetCategoryTitlesAsync();
    }

    /** Handles a submitted form. Binding errors (other than those on the
        identifier) redisplay the page before any business rule runs.
        Otherwise every rule runs and records its error, the item receives the
        parsed image list, size list and phone number, and the item is handed
        to the service exactly once if, and only if, nothing was recorded. */
    method OnPostAsync(form: RawForm) returns (result: PageResult)
      modifies this, firebaseService
      ensures firebaseService.categoryTitles == old(firebaseService.categoryTitles)
      ensures old(WithoutKey(modelState, IdKey)) != [] ==>
        result == Page && item == old(item)
        && modelState == old(WithoutKey(modelState, IdKey))
        && categoryTitles == firebaseService.categoryTitles
        && firebaseService.createdItems == old(firebaseService.createdItems)
      ensures old(WithoutKey(modelState, IdKey)) == [] ==>
        modelState == BusinessErrors(old(item), form)
        && item == Populate(old(item), form)
        && (result == RedirectToIndex <==> modelState == [])
        && firebaseService.createdItems ==
             old(firebaseService.createdItems) + (if modelState == [] then [item] else [])
        && categoryTitles == (if modelState == [] then old(categoryTitles) else firebaseService.categoryTitles)
    {
      modelState := WithoutKey(modelState, IdKey);
      if modelState != [] {
        categoryTitles := firebaseService.GetCategoryTitlesAsync();
        return Page;
      }
      // ModelState is empty here, so the rules' errors are all it holds.
      var errors := CheckBoundFields(item, form);
      var populated;
      errors, populated := ParseFormFields(item, form, errors);
      BusinessErrorsInOrder(item, form);
      modelState, item := errors, populated;

      if modelState != [] {
        categoryTitles := firebaseService.GetCategoryTitlesAsync();
        return Page;
      }
      firebaseService.CreateItemAsync(item);
      return RedirectToIndex;
    }
  }
}
