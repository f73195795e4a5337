/**
 * A page request of the API: a 1-based page number and a page size, each
 * replaced by its default when below 1, and its conversion to the 0-based
 * page request of the persistence layer.
 */
module PageRequestDto {

  import opened Wrappers

  const DEFAULT_PAGE: int := 1
  const DEFAULT_SIZE: int := 10

  datatype Direction = ASC | DESC
  datatype Order = Order(direction: Direction, property: string)
  datatype Sort = Sort(orders: seq<Order>)

  /** The sort of the one-argument `toPageable`: newest first by creation time. */
  const CREATED_AT_DESC: Sort := Sort([Order(DESC, "createdAt")])

  /** A page request of the persistence layer: a 0-based page index, a size and a sort. */
  datatype Pageable = Pageable(pageNumber: int, pageSize: int, sort: Sort)

  datatype IllegalArgumentException = IllegalArgumentException(message: string)

  /** `PageRequest.of`: refuses a negative index and a size below one. */
  function PageRequestOf(pageNumber: int, pageSize: int, sort: Sort): (r: Result<Pageable, IllegalArgumentException>)
    ensures r.Ok? <==> pageNumber >= 0 && pageSize >= 1
    ensures r.Ok? ==> r.value == Pageable(pageNumber, pageSize, sort)
  {
    if pageNumber < 0 then Err(IllegalArgumentException("Page index must not be less than zero"))
    else if pageSize < 1 then Err(IllegalArgumentException("Page size must not be less than one"))
    else Ok(Pageable(pageNumber, pageSize, sort))
  }

  datatype PageRequestDto = PageRequestDto(page: int, size: int)
  {
    /** `toPageable()`: the 0-based index `page - 1`, newest first. */
    function ToPageable(): Result<Pageable, IllegalArgumentException>
    {
      PageRequestOf(page - 1, size, CREATED_AT_DESC)
    }

    /** `toPageable(sort)`: the 0-based index `page - 1` with the given sort. */
    function ToPageableSorted(sort: Sort): Result<Pageable, IllegalArgumentException>
    {
      PageRequestOf(page - 1, size, sort)
    }
  }

  /**
   * The compact constructor: a page below 1 becomes 1 and a size below 1
   * becomes 10; values of at least 1 are kept.
   */
  function NewPageRequestDto(page: int, size: int): (r: PageRequestDto)
    ensures r.page >= 1 && r.size >= 1
    ensures page >= 1 ==> r.page == page
    ensures page < 1 ==> r.page == DEFAULT_PAGE
    ensures size >= 1 ==> r.size == size
    ensures size < 1 ==> r.size == DEFAULT_SIZE
  {
    var page := if page < 1 then 1 else page;
    var size := if size < 1 then 10 else size;
    PageRequestDto(page, size)
  }

  /** Constructing again from a constructed request changes nothing. */
  lemma NewPageRequestDtoIdempotent(page: int, size: int)
    ensures var d := NewPageRequestDto(page, size); NewPageRequestDto(d.page, d.size) == d
  {
  }

  /**
   * Every constructed request converts: the index is `page - 1`, never
   * negative, the size is kept, and the sort is newest first.
   */
  lemma ToPageableSucceeds(page: int, size: int)
    ensures var d := NewPageRequestDto(page, size);
            d.ToPageable() == Ok(Pageable(d.page - 1, d.size, CREATED_AT_DESC)) && d.page - 1 >= 0
  {
  }

  /** The same for a caller-given sort. */
  lemma ToPageableSortedSucceeds(page: int, size: int, sort: Sort)
    ensures var d := NewPageRequestDto(page, size);
            d.ToPageableSorted(sort) == Ok(Pageable(d.page - 1, d.size, sort))
  {
  }
}
