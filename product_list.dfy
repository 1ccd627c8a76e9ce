/** The product list view: the loaded products, a case-insensitive search
    that narrows them, client-side pagination of the result, and a delete
    that waits for confirmation. */
module ProductList {
  import opened Wrappers
  import opened Builtins
  import opened Dates
  import opened Products
  import Notifications
  import ProductService

  // ---------------------------------------------------------------------
  // Search
  // ---------------------------------------------------------------------

  /** A search term counts as empty when nothing is left after `trim`. */
  predicate IsBlank(term: string) {
    Trim(term) == ""
  }

  /** The term as the filter compares it: lower-cased, then trimmed. */
  function NormalisedTerm(term: string): string {
    Trim(ToLower(term))
  }

  /** The product's lower-cased name, description or id contains `term`. */
  predicate Matches(p: Product, term: string) {
    || Contains(ToLower(p.name), term)
    || Contains(ToLower(p.description), term)
    || Contains(ToLower(p.id), term)
  }

  /** The filter callback for a normalised term. */
  function MatchesTerm(term: string): Product -> bool {
    (p: Product) => Matches(p, term)
  }

  /** What `onSearch` stores in `filteredProducts`. */
  function Search(products: seq<Product>, term: string): seq<Product> {
    if IsBlank(term) then products
    else Filter(products, MatchesTerm(NormalisedTerm(term)))
  }

  /** Lower-casing does not touch white space, so a term is blank exactly
      when its lower-cased form is: a non-blank term is never compared as
      the empty string. */
  lemma NormalisedTermBlankness(term: string)
    ensures NormalisedTerm(term) == "" <==> IsBlank(term)
  {
    TrimEmptyIff(term);
    TrimEmptyIff(ToLower(term));
  }

  /** A blank term keeps all products, in their order. */
  lemma SearchBlank(products: seq<Product>, term: string)
    requires forall k :: 0 <= k < |term| ==> IsWhiteSpace(term[k])
    ensures Search(products, term) == products
  {
    TrimEmptyIff(term);
  }

  /** A non-blank term keeps exactly the products that match it. */
  lemma SearchMembership(products: seq<Product>, term: string, p: Product)
    requires !IsBlank(term)
    ensures p in Search(products, term) <==> p in products && Matches(p, NormalisedTerm(term))
    ensures NormalisedTerm(term) != ""
  {
    FilterMembership(products, MatchesTerm(NormalisedTerm(term)), p);
    NormalisedTermBlankness(term);
  }

  /** The search keeps the products in the order they were loaded: it works
      piecewise on any split of the list. */
  lemma SearchKeepsOrder(a: seq<Product>, b: seq<Product>, term: string)
    ensures Search(a + b, term) == Search(a, term) + Search(b, term)
  {
    if !IsBlank(term) {
      FilterAppend(a, b, MatchesTerm(NormalisedTerm(term)));
    }
  }

  /** Searching the search result again with the same term changes nothing. */
  lemma SearchIdempotent(products: seq<Product>, term: string)
    ensures Search(Search(products, term), term) == Search(products, term)
  {
    if !IsBlank(term) {
      FilterIdempotent(products, MatchesTerm(NormalisedTerm(term)));
    }
  }

  // ---------------------------------------------------------------------
  // Pagination
  // ---------------------------------------------------------------------

  /** The first position of a page, `(page - 1) * perPage`. */
  function PageStart(page: int, perPage: int): int {
    (page - 1) * perPage
  }

  /** `getPaginatedProducts`: the slice from the page start to one page
      further. */
  function PageOf<T>(s: seq<T>, page: int, perPage: int): seq<T> {
    Slice(s, PageStart(page, perPage), PageStart(page, perPage) + perPage)
  }

  /** A window of `n` items from a non-negative position: it stops at the
      end of the list. */
  lemma WindowContents<T>(s: seq<T>, start: int, n: int)
    requires 0 <= start && 0 <= n
    ensures var r := Slice(s, start, start + n);
            && |r| == (if start >= |s| then 0 else if start + n <= |s| then n else |s| - start)
            && (r != [] ==> start + |r| <= |s|)
            && forall k :: 0 <= k < |r| ==> r[k] == s[start + k]
  {
    SliceNonNegative(s, start, start + n);
  }

  /** `a <= b` scales by a non-negative factor. */
  lemma ScaleMonotone(a: int, b: int, n: int)
    requires a <= b && 0 <= n
    ensures a * n <= b * n
  {
    assert b * n - a * n == (b - a) * n;
  }

  /** A page holds the items from its start position onwards, at most
      `perPage` of them, and stops at the end of the list. */
  lemma PageContents<T>(s: seq<T>, page: int, perPage: int)
    requires page >= 1 && perPage >= 1
    ensures PageStart(page, perPage) >= 0
    ensures var r, start := PageOf(s, page, perPage), PageStart(page, perPage);
            && |r| == (if start >= |s| then 0 else if start + perPage <= |s| then perPage else |s| - start)
            && (r != [] ==> start + |r| <= |s|)
            && forall k :: 0 <= k < |r| ==> r[k] == s[start + k]
  {
    ScaleMonotone(0, page - 1, perPage);
    WindowContents(s, PageStart(page, perPage), perPage);
  }

  /** `getTotalPages`: `Math.ceil(count / perPage)`. */
  function TotalPages(count: nat, perPage: nat): nat
    requires perPage >= 1
  {
    (count + perPage - 1) / perPage
  }

  /** The page count is the least number of pages that hold every item:
      none for an empty list, one whenever a page holds them all. */
  lemma TotalPagesIsCeiling(count: nat, perPage: nat)
    requires perPage >= 1
    ensures var t := TotalPages(count, perPage);
            && (count == 0 <==> t == 0)
            && t * perPage >= count
            && (t >= 1 ==> (t - 1) * perPage < count)
            && (0 < count <= perPage ==> t == 1)
  {
    var t := TotalPages(count, perPage);
    var a := count + perPage - 1;
    var r := a % perPage;
    var m := t * perPage;
    assert a == m + r && 0 <= r < perPage;
    assert m >= count;
    assert (t - 1) * perPage == m - perPage;
    if t >= 1 {
      ScaleMonotone(1, t, perPage);
    }
    if t >= 2 {
      ScaleMonotone(2, t, perPage);
    }
  }

  /** Every item lies on exactly one page no later than the last one: item
      `i` is at offset `i % perPage` of page `i / perPage + 1`. */
  lemma ItemOnItsPage<T>(s: seq<T>, perPage: nat, i: nat)
    requires perPage >= 1 && i < |s|
    ensures var page := i / perPage + 1;
            && 1 <= page <= TotalPages(|s|, perPage)
            && i % perPage < |PageOf(s, page, perPage)|
            && PageOf(s, page, perPage)[i % perPage] == s[i]
  {
    var page, offset := i / perPage + 1, i % perPage;
    assert PageStart(page, perPage) + offset == i;
    PageContents(s, page, perPage);
    TotalPagesIsCeiling(|s|, perPage);
    var t := TotalPages(|s|, perPage);
    if page > t {
      ScaleMonotone(t, page - 1, perPage);
      assert false;
    }
  }

  /** The pages that follow the last one are empty, and the ones up to it
      are not. */
  lemma PageEmptyIff<T>(s: seq<T>, page: int, perPage: nat)
    requires page >= 1 && perPage >= 1
    ensures PageOf(s, page, perPage) == [] <==> page > TotalPages(|s|, perPage)
  {
    PageContents(s, page, perPage);
    TotalPagesIsCeiling(|s|, perPage);
    var t := TotalPages(|s|, perPage);
    if page > t {
      ScaleMonotone(t, page - 1, perPage);
    } else {
      ScaleMonotone(page - 1, t - 1, perPage);
    }
  }

  /** `previousPage`: one back, never below page 1. */
  function PageBefore(page: int): (r: int)
    ensures page >= 1 ==> r >= 1
    ensures r == page - 1 || r == page
    ensures r == page <==> page <= 1
  {
    if page > 1 then page - 1 else page
  }

  /** `nextPage`: one forward, never beyond the last page. */
  function PageAfter(page: int, total: int): (r: int)
    ensures r == page + 1 || r == page
    ensures r == page <==> page >= total
    ensures page <= total ==> r <= total
    ensures r >= page
  {
    if page < total then page + 1 else page
  }

  // ---------------------------------------------------------------------
  // Date display
  // ---------------------------------------------------------------------

  /** `DD/MM/YYYY` with day and month padded to two digits and the year as
      `String` prints it. */
  function DisplayDate(d: Date): string {
    PadStart(NatToString(d.day), 2, '0') + "/" + PadStart(NatToString(d.month), 2, '0')
    + "/" + NatToString(d.year)
  }

  /** `formatDate`: an unreadable date string prints as JavaScript prints an
      invalid date, `NaN/NaN/NaN`. */
  function FormatDate(dateString: string): string {
    match ParseIso(dateString)
    case Some(d) => DisplayDate(d)
    case None => "NaN/NaN/NaN"
  }

  /** The displayed date can be read back field by field: two day digits,
      a slash, two month digits, a slash, and the year. */
  lemma DisplayDateFields(d: Date)
    requires IsValid(d)
    ensures var r := DisplayDate(d);
            && |r| >= 7 && r[2] == '/' && r[5] == '/'
            && IsDigitString(r[..2]) && DigitsValue(r[..2]) == d.day
            && IsDigitString(r[3..5]) && DigitsValue(r[3..5]) == d.month
            && IsDigitString(r[6..]) && DigitsValue(r[6..]) == d.year
  {
    PaddedDigits(d.day, 2);
    PaddedDigits(d.month, 2);
    NatToStringValue(d.year);
    var dd := PadStart(NatToString(d.day), 2, '0');
    var mm := PadStart(NatToString(d.month), 2, '0');
    var r := DisplayDate(d);
    assert r == dd + "/" + mm + "/" + NatToString(d.year);
    assert r[..2] == dd && r[3..5] == mm && r[6..] == NatToString(d.year);
  }

  /** An ISO date string is shown with its day and month swapped to the
      front: `YYYY-MM-DD` becomes `DD/MM/YYYY`. */
  lemma FormatDateSwapsFields(dateString: string)
    requires ParseIso(dateString).Some? && DigitsValue(dateString[..4]) >= 1000
    ensures var r := FormatDate(dateString);
            r == dateString[8..] + "/" + dateString[5..7] + "/" + dateString[..4]
  {
    var d := ParseIso(dateString).value;
    ParseThenFormat(dateString);
    var y := NatToString(d.year);
    var m := PadStart(NatToString(d.month), 2, '0');
    var dd := PadStart(NatToString(d.day), 2, '0');
    assert Pow10(3) == 1000 && Pow10(4) == 10000;
    NatToStringLength(d.year, 3);
    PaddedDigits(d.year, 4);
    PaddedDigits(d.month, 2);
    PaddedDigits(d.day, 2);
    assert IsoYear(d.year) == y;
    IsoLayout(y, m, dd);
    assert dateString == y + "-" + m + "-" + dd;
    assert FormatDate(dateString) == dd + "/" + m + "/" + y;
  }

  // ---------------------------------------------------------------------
  // The component
  // ---------------------------------------------------------------------

  class ProductListComponent {
    var products: seq<Product>
    var filteredProducts: seq<Product>
    var isLoading: bool
    var searchTerm: string
    var itemsPerPage: int
    var currentPage: int
    var showDeleteModal: bool
    var productToDelete: Option<Product>
    /** The router commands issued so far. */
    var navigations: seq<seq<string>>
    const notifier: Notifications.NotificationService
    const baseUrl: string

    ghost predicate Valid()
      reads this, notifier
    {
      notifier.Valid() && currentPage >= 1 && itemsPerPage >= 1
    }

    constructor (notifier: Notifications.NotificationService, baseUrl: string)
      requires notifier.Valid()
      ensures Valid() && this.notifier == notifier && this.baseUrl == baseUrl
      ensures products == [] && filteredProducts == [] && !isLoading && searchTerm == ""
      ensures itemsPerPage == 5 && currentPage == 1
      ensures !showDeleteModal && productToDelete == None && navigations == []
    {
      this.notifier := notifier;
      this.baseUrl := baseUrl;
      products := [];
      filteredProducts := [];
      isLoading := false;
      searchTerm := "";
      itemsPerPage := 5;
      currentPage := 1;
      showDeleteModal := false;
      productToDelete := None;
      navigations := [];
    }

    /** `loadProducts`: mark loading and request the list. */
    method LoadProducts() returns (request: ProductService.Request)
      requires Valid()
      modifies this
      ensures Valid()
      ensures request == ProductService.GetProducts(baseUrl)
      ensures isLoading
      ensures products == old(products) && filteredProducts == old(filteredProducts)
      ensures currentPage == old(currentPage) && itemsPerPage == old(itemsPerPage) && searchTerm == old(searchTerm)
      ensures showDeleteModal == old(showDeleteModal) && productToDelete == old(productToDelete)
      ensures navigations == old(navigations)
    {
      isLoading := true;
      request := ProductService.GetProducts(baseUrl);
    }

    /** The list arrived: it replaces both the products and the shown list.
        The current page is left as it was. */
    method OnProductsLoaded(loaded: seq<Product>)
      requires Valid()
      modifies this
      ensures Valid()
      ensures products == loaded && filteredProducts == loaded && !isLoading
      ensures currentPage == old(currentPage) && itemsPerPage == old(itemsPerPage) && searchTerm == old(searchTerm)
      ensures showDeleteModal == old(showDeleteModal) && productToDelete == old(productToDelete)
      ensures navigations == old(navigations)
    {
      products := loaded;
      filteredProducts := loaded;
      isLoading := false;
    }

    /** Loading failed: report it and stop loading; the lists stay. */
    method OnProductsLoadFailed(message: string)
      requires Valid()
      modifies this, notifier
      ensures Valid()
      ensures !isLoading
      ensures notifier.notifications == old(notifier.notifications)
              + [Notifications.MakeNotification(notifier.counter,
                   Notifications.ShortcutOptions(Notifications.Error, "Error al cargar los productos: " + message, None))]
      ensures products == old(products) && filteredProducts == old(filteredProducts)
      ensures currentPage == old(currentPage) && itemsPerPage == old(itemsPerPage) && searchTerm == old(searchTerm)
      ensures showDeleteModal == old(showDeleteModal) && productToDelete == old(productToDelete)
      ensures navigations == old(navigations)
    {
      notifier.Error("Error al cargar los productos: " + message, None);
      isLoading := false;
    }

    /** The search box's two-way binding writes the term. */
    method SetSearchTerm(term: string)
      requires Valid()
      modifies this`searchTerm
      ensures Valid() && searchTerm == term
    {
      searchTerm := term;
    }

    /** `onSearch`: narrow the shown list to the term and go to page 1. */
    method OnSearch()
      requires Valid()
      modifies this`filteredProducts, this`currentPage
      ensures Valid()
      ensures filteredProducts == Search(products, searchTerm)
      ensures currentPage == 1
    {
      var shown := products;
      if !IsBlank(searchTerm) {
        var term := NormalisedTerm(searchTerm);
        shown := Filter(products, MatchesTerm(term));
      }
      filteredProducts := shown;
      currentPage := 1;
      // The list and the term were only read, which pins `Search` to them.
      assert products == old(products) && searchTerm == old(searchTerm);
    }

    /** `getPaginatedProducts`: the items of the current page. */
    function GetPaginatedProducts(): (r: seq<Product>)
      reads this
      requires currentPage >= 1 && itemsPerPage >= 1
      ensures |r| <= itemsPerPage
      ensures PageStart(currentPage, itemsPerPage) >= 0
      ensures r != [] ==> PageStart(currentPage, itemsPerPage) + |r| <= |filteredProducts|
      ensures forall k :: 0 <= k < |r| ==> r[k] == filteredProducts[PageStart(currentPage, itemsPerPage) + k]
      ensures r == [] <==> currentPage > GetTotalPages()
    {
      PageContents(filteredProducts, currentPage, itemsPerPage);
      PageEmptyIff(filteredProducts, currentPage, itemsPerPage);
      PageOf(filteredProducts, currentPage, itemsPerPage)
    }

    /** `getTotalPages`: how many pages the shown list fills. */
    function GetTotalPages(): (r: nat)
      reads this
      requires itemsPerPage >= 1
      ensures r * itemsPerPage >= |filteredProducts|
      ensures r >= 1 ==> (r - 1) * itemsPerPage < |filteredProducts|
      ensures r == 0 <==> filteredProducts == []
    {
      TotalPagesIsCeiling(|filteredProducts|, itemsPerPage);
      TotalPages(|filteredProducts|, itemsPerPage)
    }

    /** The page-size selector's binding writes the new size, and
        `onItemsPerPageChange` returns to page 1. */
    method OnItemsPerPageChange(perPage: int)
      requires Valid() && perPage >= 1
      modifies this`itemsPerPage, this`currentPage
      ensures Valid() && itemsPerPage == perPage && currentPage == 1
    {
      itemsPerPage := perPage;
      currentPage := 1;
    }

    /** `previousPage`. */
    method PreviousPage()
      requires Valid()
      modifies this`currentPage
      ensures Valid()
      ensures currentPage == PageBefore(old(currentPage))
    {
      if currentPage > 1 {
        currentPage := currentPage - 1;
      }
    }

    /** `nextPage`. */
    method NextPage()
      requires Valid()
      modifies this`currentPage
      ensures Valid()
      ensures currentPage == PageAfter(old(currentPage), GetTotalPages())
    {
      if currentPage < GetTotalPages() {
        currentPage := currentPage + 1;
      }
    }

    /** `deleteProduct`: only remember the product and open the modal; no
        request is made yet. */
    method DeleteProduct(p: Product)
      requires Valid()
      modifies this`productToDelete, this`showDeleteModal
      ensures Valid()
      ensures productToDelete == Some(p) && showDeleteModal
    {
      productToDelete := Some(p);
      showDeleteModal := true;
    }

    /** `confirmDelete`: with no product chosen nothing happens; otherwise
        the delete request for it is issued and the modal stays open until
        the answer comes. */
    method ConfirmDelete() returns (request: Option<ProductService.Request>)
      requires Valid()
      ensures productToDelete == None ==> request == None
      ensures productToDelete.Some? ==> request == Some(ProductService.DeleteProduct(baseUrl, productToDelete.value.id))
    {
      if productToDelete == None {
        return None;
      }
      request := Some(ProductService.DeleteProduct(baseUrl, productToDelete.value.id));
    }

    /** The delete succeeded: report it, close the modal, forget the product
        and reload the list. */
    method OnDeleteSucceeded() returns (reload: ProductService.Request)
      requires Valid()
      modifies this, notifier
      ensures Valid()
      ensures notifier.notifications == old(notifier.notifications)
              + [Notifications.MakeNotification(notifier.counter,
                   Notifications.ShortcutOptions(Notifications.Success, "Producto eliminado exitosamente", None))]
      ensures !showDeleteModal && productToDelete == None
      ensures isLoading && reload == ProductService.GetProducts(baseUrl)
      ensures products == old(products) && filteredProducts == old(filteredProducts)
      ensures currentPage == old(currentPage) && itemsPerPage == old(itemsPerPage) && searchTerm == old(searchTerm)
      ensures navigations == old(navigations)
    {
      notifier.Success("Producto eliminado exitosamente", None);
      showDeleteModal := false;
      productToDelete := None;
      reload := LoadProducts();
    }

    /** The delete failed: report it, close the modal and forget the product. */
    method OnDeleteFailed(message: string)
      requires Valid()
      modifies this, notifier
      ensures Valid()
      ensures notifier.notifications == old(notifier.notifications)
              + [Notifications.MakeNotification(notifier.counter,
                   Notifications.ShortcutOptions(Notifications.Error, "Error al eliminar el producto: " + message, None))]
      ensures !showDeleteModal && productToDelete == None
      ensures products == old(products) && filteredProducts == old(filteredProducts) && isLoading == old(isLoading)
      ensures currentPage == old(currentPage) && itemsPerPage == old(itemsPerPage) && searchTerm == old(searchTerm)
      ensures navigations == old(navigations)
    {
      notifier.Error("Error al eliminar el producto: " + message, None);
      showDeleteModal := false;
      productToDelete := None;
    }

    /** `cancelDelete`: close the modal and forget the product. */
    method CancelDelete()
      requires Valid()
      modifies this`productToDelete, this`showDeleteModal
      ensures Valid()
      ensures !showDeleteModal && productToDelete == None
    {
      showDeleteModal := false;
      productToDelete := None;
    }

    /** `navigateToForm`. */
    method NavigateToForm()
      requires Valid()
      modifies this`navigations
      ensures Valid() && navigations == old(navigations) + [["/products/new"]]
    {
      navigations := navigations + [["/products/new"]];
    }

    /** `editProduct`. */
    method EditProduct(p: Product)
      requires Valid()
      modifies this`navigations
      ensures Valid() && navigations == old(navigations) + [["/products/edit", p.id]]
    {
      navigations := navigations + [["/products/edit", p.id]];
    }
  }
}
