/** The KnittedItem table as models/product.js declares it with sequelize.define:
    the columns, which of them may be null, and the rows Sequelize builds from the
    attributes a caller supplies. */
module KnittedItemModel {
  import opened Wrappers
  import Decimal

  /** Largest value of the signed 32-bit INTEGER primary key. */
  const MaxKey: nat := 2_147_483_647

  /** Largest magnitude a DECIMAL(10,2) column holds, in cents (99999999.99). */
  const MaxPriceCents: int := 9_999_999_999

  /** One stored row. The NOT NULL columns (name, price) and the columns Sequelize adds
      on its own (id, createdAt, updatedAt) are always present; the nullable columns are
      options. price is in cents, timestamps are integer instants. */
  datatype Item = Item(
    id: nat,
    name: string,
    description: Option<string>,
    price: int,
    category: Option<string>,
    imageUrl: Option<string>,
    size: Option<string>,
    createdAt: int,
    updatedAt: int)

  /** A price fits DECIMAL(10,2): at most ten digits of which two are fractional.
      Negative prices are not excluded by the schema. */
  predicate ValidPrice(cents: int)
  {
    -MaxPriceCents <= cents <= MaxPriceCents
  }

  /** A price fits DECIMAL(10,2) exactly when its magnitude in cents has at most ten digits. */
  lemma ValidPriceTenDigits(cents: int)
    ensures ValidPrice(cents) <==> |Decimal.ToDecimal(if cents < 0 then -cents else cents)| <= 10
  {
    Decimal.ToDecimalLength(if cents < 0 then -cents else cents, 10);
    assert Decimal.Pow10(10) == MaxPriceCents + 1;
  }

  /** A row as the table admits it: an auto-increment id from 1 up to the INTEGER maximum,
      and a price that fits. */
  predicate ValidItem(it: Item)
  {
    1 <= it.id <= MaxKey && ValidPrice(it.price)
  }

  /** The attributes passed to create/bulkCreate: any declared column may be omitted. */
  datatype Attributes = Attributes(
    name: Option<string>,
    description: Option<string>,
    price: Option<int>,
    category: Option<string>,
    imageUrl: Option<string>,
    size: Option<string>)

  /** The row built from attrs under primary key id at instant now, or None when the
      attributes violate the schema. */
  function Build(attrs: Attributes, id: nat, now: int): (r: Option<Item>)
    ensures r.Some? <==> attrs.name.Some? && attrs.price.Some? && ValidPrice(attrs.price.value)
    ensures r.Some? ==> 1 <= id <= MaxKey ==> ValidItem(r.value)
    ensures r.Some? ==> r.value.id == id && r.value.createdAt == now && r.value.updatedAt == now
    ensures r.Some? ==>
      && Some(r.value.name) == attrs.name && Some(r.value.price) == attrs.price
      && r.value.description == attrs.description && r.value.category == attrs.category
      && r.value.imageUrl == attrs.imageUrl && r.value.size == attrs.size
  {
    match (attrs.name, attrs.price)
    case (Some(name), Some(price)) =>
      if ValidPrice(price) then
        Some(Item(id, name, attrs.description, price, attrs.category, attrs.imageUrl, attrs.size, now, now))
      else None
    case _ => None
  }
}
