/** What a design document is reduced to: items with a kind, a key, a label and attributes. */
module Items {

  /** Numbers are reals: rounding is not modelled. */
  datatype Attr = Text(text: string) | Num(number: real) | Point(x: real, y: real)

  const EPS: real := 0.000001

  function Abs(r: real): real {
    if r < 0.0 then -r else r
  }

  predicate SameAs(a: Attr, b: Attr) {
    match (a, b)
    case (Text(s), Text(t)) => s == t
    case (Num(m), Num(n)) => Abs(m - n) < EPS
    case (Point(x0, y0), Point(x1, y1)) => Abs(x0 - x1) < EPS && Abs(y0 - y1) < EPS
    case _ => false
  }

  datatype Identity = Identity(kind: string, key: string)

  /** `title` is what the program calls the label. */
  datatype Item = Item(kind: string, key: string, title: string, attrs: map<string, Attr>)

  function IdentityOf(item: Item): Identity {
    Identity(item.kind, item.key)
  }

  ghost predicate Keyed(items: map<Identity, Item>) {
    forall id | id in items :: IdentityOf(items[id]) == id
  }

  /** The items of one version of one document, each under its own identity. */
  type ItemSet = items: map<Identity, Item> | Keyed(items) witness map[]

  /** A later item takes the place of an earlier one with its identity, and disturbs no other. */
  function Insert(items: ItemSet, item: Item): (more: ItemSet)
    ensures IdentityOf(item) in more && more[IdentityOf(item)] == item
    ensures forall id | id != IdentityOf(item) ::
              (id in more <==> id in items) && (id in items ==> more[id] == items[id])
  {
    items[IdentityOf(item) := item]
  }
}
