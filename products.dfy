/** The product entities exchanged with the backend. Dates travel as ISO
    `YYYY-MM-DD` strings. */
module Products {

  datatype Product = Product(
    id: string,
    name: string,
    description: string,
    logo: string,
    date_release: string,
    date_revision: string)

  /** The payload of a create or update. */
  datatype ProductFormData = ProductFormData(
    id: string,
    name: string,
    description: string,
    logo: string,
    date_release: string,
    date_revision: string)

  /** The envelope the list endpoint answers with: `{ data: Product[] }`. */
  datatype ProductsEnvelope = ProductsEnvelope(data: seq<Product>)
}

/** The product service: each domain operation as the request it issues
    through the HTTP wrapper. */
module ProductService {
  import opened Wrappers
  import opened BaseHttp
  import opened Products

  const ProductsEndpoint: string := "products"

  type Request = HttpRequest<ProductFormData>

  /** `getProducts`: GET `products`. */
  function GetProducts(baseUrl: string): (r: Request)
    ensures r.verb == GET && r.url == baseUrl + "/products" && r.body == None
  {
    Get(baseUrl, ProductsEndpoint)
  }

  /** What `getProducts` delivers: the envelope's `data`, unchanged, or the
      wrapper's failure message. */
  function ProductsFromResponse(response: Result<ProductsEnvelope, string>): (r: Result<seq<Product>, string>)
    ensures response.Success? ==> r == Success(response.value.data)
    ensures response.Failure? ==> r == Failure(response.error)
  {
    match response
    case Success(envelope) => Success(envelope.data)
    case Failure(message) => Failure(message)
  }

  /** `getProductById(id)`: GET `products/<id>`. */
  function GetProductById(baseUrl: string, id: string): (r: Request)
    ensures r.verb == GET && r.url == baseUrl + "/products/" + id && r.body == None
  {
    Get(baseUrl, ProductsEndpoint + "/" + id)
  }

  /** `createProduct(p)`: POST `products` with `p` as the body. */
  function CreateProduct(baseUrl: string, product: ProductFormData): (r: Request)
    ensures r.verb == POST && r.url == baseUrl + "/products" && r.body == Some(product)
  {
    Post(baseUrl, ProductsEndpoint, product)
  }

  /** `updateProduct(id, p)`: PUT `products/<id>` with `p` as the body. */
  function UpdateProduct(baseUrl: string, id: string, product: ProductFormData): (r: Request)
    ensures r.verb == PUT && r.url == baseUrl + "/products/" + id && r.body == Some(product)
  {
    Put(baseUrl, ProductsEndpoint + "/" + id, product)
  }

  /** `deleteProduct(id)`: DELETE `products/<id>`. */
  function DeleteProduct(baseUrl: string, id: string): (r: Request)
    ensures r.verb == DELETE && r.url == baseUrl + "/products/" + id && r.body == None
  {
    Delete(baseUrl, ProductsEndpoint + "/" + id)
  }

  /** `verifyProductId(id)`: GET `products/verification/<id>`; the boolean
      the backend answers is delivered as it is. */
  function VerifyProductId(baseUrl: string, id: string): (r: Request)
    ensures r.verb == GET && r.url == baseUrl + "/products/verification/" + id && r.body == None
  {
    Get(baseUrl, ProductsEndpoint + "/verification/" + id)
  }

  /** Reading, updating and deleting one product all address the same URL. */
  lemma SingleProductUrl(baseUrl: string, id: string, product: ProductFormData)
    ensures GetProductById(baseUrl, id).url == UpdateProduct(baseUrl, id, product).url
                                          == DeleteProduct(baseUrl, id).url
    ensures GetProductById(baseUrl, id).url != GetProducts(baseUrl).url
  {
    assert |GetProductById(baseUrl, id).url| > |GetProducts(baseUrl).url|;
  }

  /** The id is pasted into the path unescaped, so looking up a product
      addresses the verification endpoint exactly when its id starts with
      `verification/`. */
  lemma LookupMeetsVerification(baseUrl: string, id: string, other: string)
    ensures GetProductById(baseUrl, id) == VerifyProductId(baseUrl, other) <==> id == "verification/" + other
  {
    var p := baseUrl + "/products/";
    assert baseUrl + "/products/verification/" + other == p + ("verification/" + other);
    assert GetProductById(baseUrl, id).url == p + id;
    if p + id == p + ("verification/" + other) {
      assert id == (p + id)[|p|..];
    }
  }
}
