/** The product record the listing page receives from the catalog. The page
    never changes a record: every operation below reads products as values. */
module Catalog {

  datatype Option<T> = None | Some(value: T)

  /** One catalog product. `price`, `rating` and `discountPercentage` are JS
      numbers (modelled as reals, NaN excluded); the optional fields are the
      ones the page reads with `?.` or `|| 0`. */
  datatype Product = Product(
    id: string,
    name: string,
    price: real,
    originalPrice: Option<real>,
    image: string,
    rating: real,
    reviewsCount: int,
    brand: Option<string>,
    discountPercentage: Option<real>,
    category: Option<string>,
    description: Option<string>)

  /** `p.discount_percentage || 0`: an absent discount counts as zero. */
  function DiscountOrZero(p: Product): real {
    match p.discountPercentage
    case None => 0.0
    case Some(v) => v
  }
}
