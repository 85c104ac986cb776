/**
  The plain value types of the `model` package: a menu item (`MenuItem`, whose fields are
  fixed at construction) and the status of an order (`OrderStatus`).
*/
module ModelTypes {
  import opened JavaLang

  /**
    A dish on the menu: its code, name, category and description. The price is a `double`
    and is not part of this model.
  */
  datatype MenuItem = MenuItem(code: Text, name: Text, category: Text, description: Text)

  /** The life cycle of an order. */
  datatype OrderStatus = New | InProgress | Served | Cancelled
}
