/** The filter, sort and page specification of the stock listing, bound from
    the query string. */
module Helpers {
  import opened Numerics

  datatype QueryObject = QueryObject(
    symbol: string,
    companyName: string,
    sortby: string,
    isDescending: bool,
    pageNumber: Int32,
    pageSize: Int32)

  /** The property initialisers: no filter, no sort, first page of twenty. */
  const DefaultQuery := QueryObject("", "", "", false, 1, 20)
}
