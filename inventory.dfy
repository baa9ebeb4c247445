/** The records the restock screen works on, and its two selectors. */
module Inventory {
  import opened Wrappers

  /**
   * One stock line: a product (`name`, `size`, `category`) held at a `location`.
   * `dailyUsage` is `None` when the record has no usable figure (absent, or `NaN`).
   */
  datatype Item = Item(
    id: string,
    name: string,
    size: string,
    category: string,
    dailyUsage: Option<real>,
    unit: string,
    expectedQty: int,
    location: string)

  /** The central warehouse every restock request draws on. */
  const MainWarehouse: string := "Gudang Utama"

  /** The satellite warehouse whose stock is planned. */
  datatype Warehouse = Singles | Nugget {
    function Name(): string {
      match this
      case Singles => "Gudang Singles"
      case Nugget => "Gudang Nugget"
    }
  }

  /** The planning horizon. */
  datatype Period = OneDay | OneWeek | OneMonth {
    function Code(): string {
      match this
      case OneDay => "1D"
      case OneWeek => "1W"
      case OneMonth => "1M"
    }
  }

  /** `item.dailyUsage || 0`. */
  function UsageOf(item: Item): real {
    match item.dailyUsage
    case Some(u) => u
    case None => 0.0
  }
}
