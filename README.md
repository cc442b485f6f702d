# Stocks API — a verified model of its repositories, listing query and V1 controllers

The Stocks API is an ASP.NET Core web service. It keeps stocks and the comments
users post on them. This project models its core in Dafny:

* **Entities and DTOs.** `Stock` and `Comment` are datatypes.
  - The request DTOs carry validation attributes, written as predicates.
  - The mappers between entities and DTOs are functions.
  - An in-place update such as `MapStockDtoToStockModel(src, dest)` becomes a
    function returning the updated record.
* **Repositories.** Each repository is a `class` whose table is a `seq` field
  that its methods reassign.
  - The in-memory test doubles (`MockStockRepository`, `MockCommentRepository`)
    number a new record one past the largest id. `Max` throws on an empty
    list; that case is a `Failure` result.
  - The database-backed `StockRepository` and `CommentRepository` receive the
    generated id as a parameter.
  - Lookups return the first record with the id, or null (`None`).
  - Delete removes that record. Update overwrites its data fields and returns
    null when the id is absent.
  - Every method states its whole new table. It also keeps ids unique, and
    for the doubles positive.
* **The stock listing query.** Both versions are modelled as written:
  - the test double's: `IsNullOrWhiteSpace` guards, case-insensitive
    `Contains`, six sort keys in an `else if` chain;
  - the database repository's: `Length > 0` guards, ordinal `Contains`, two
    sort keys tested by two independent `if`s.

  Each version is proved equal to one generic *listing*: filter, then an
  optional stable sort, then a page. The listing is proved to list only
  matching stored stocks, in key order when a key is recognised. It holds at
  most a page of them, and all of them on a first page large enough.
  The database repository runs on SQL Server, where `Skip` and `Take` become
  `OFFSET … FETCH`. That clause refuses a negative offset and a page size
  below one, so there the query throws (a `Failure` result) instead of listing.
* **Sorting.** LINQ `OrderBy`/`OrderByDescending` is a stable insertion sort
  under a total preorder. It is proved to produce a sorted permutation, to be
  stable, and, when the keys are distinct, to give the reversed ascending
  order for descending.
* **Paging.** `Skip((PageNumber - 1) * PageSize).Take(PageSize)`, with the
  offset computed in unchecked 32-bit `int` arithmetic.
  - Consecutive pages reassemble the list.
  - In the test double's in-memory query, a page number of zero or less yields
    the first page, since `Skip` ignores a negative count.
  - The offset can wrap around: page 107374184 of size 20 computes a negative
    offset. The test double then repeats the first page
    (`Paging.OverflowingPageRepeatsFirst`); the database refuses the query
    (`StockQuery.RepositoryPagingFailures`).
* **V1 controllers.** Each action makes its repository call and classifies
  the result as 400, 404, 200, 201 or 204, or 500 when the listing query throws.
  - The comment controller refuses an invalid model state.
  - It refuses a comment for a stock that does not exist, with the message
    "Stock does not exist".
  - `PUT` answers 200 with a null body when the id is absent.
* **Examples.** Lemmas evaluate the listing on the test double's seed data,
  for the queries its repository tests make.

`async` calls are modelled as synchronous calls. Decimal fields are `real`.
`int` is `Int32` and `long` is `Int64`.

## Model

| member | source | states |
|---|---|---|
| Numerics.Wrap32 | Test/Mocks/MockStockRepository.cs:56 | the unchecked `int` result is congruent to the exact one modulo 2^32, and equal to it when in range |
| Tables.FirstWithId | Test/Mocks/MockStockRepository.cs:63 | `FirstOrDefault(s => s.Id == id)` is null exactly when no record has the id, and otherwise the first stored record with that id |
| Tables.AnyWithIdMeaning | Test/Mocks/MockStockRepository.cs:126 | `Any(s => s.Id == id)` holds exactly when some stored record has the id |
| Tables.MaxId | Test/Mocks/MockStockRepository.cs:56 | `Max(s => s.Id)` of a non-empty list bounds every id and is the id of a stored record |
| Tables.RemoveAt | Test/Mocks/MockStockRepository.cs:66 | removing one record keeps the others, in order, and removes exactly one occurrence |
| Tables.RemovedIdIsGone | Test/Mocks/MockStockRepository.cs:61-69 | after removing the record found for an id, no record has that id and ids stay unique |
| Tables.ReplaceKeepsIds | Test/Mocks/MockStockRepository.cs:137-142 | overwriting a record's fields in place keeps ids unique and keeps the record findable at the same position |
| Tables.NextIdIsFresh | Test/Mocks/MockStockRepository.cs:56-57 | the id one past the largest exceeds every stored id; the appended record is then found by it, and ids stay unique and positive |
| Tables.FreshIdAppended | Core/Stocks.API/Repository/StockRepository.cs:15-20 | a row added under an id no row holds is found by that id, and ids stay unique |
| Text.Contains | Core/Stocks.API/Repository/StockRepository.cs:39 | ordinal `Contains` holds exactly when the needle occurs at some position of the string |
| Text.ContainsImpliesContainsIgnoreCase | Test/Mocks/MockStockRepository.cs:77 | an ordinal match is also an `OrdinalIgnoreCase` match |
| Text.EqualsIgnoreCaseSameLength | Core/Stocks.API/Repository/StockRepository.cs:48-55 | strings equal under `OrdinalIgnoreCase` have the same length |
| Text.StrLeTotal | Test/Mocks/MockStockRepository.cs:89 | any two string keys are comparable in the ordinal order |
| Text.StrLeTransitive | Test/Mocks/MockStockRepository.cs:89 | the ordinal order of string keys is transitive |
| Text.StrLeAntisymmetric | Test/Mocks/MockStockRepository.cs:89 | string keys that sort both ways are equal |
| CommentDtos.ValidCreateCommentRequest | Core/Stocks.API/Dtos/Comment/CreateCommentRequestDto.cs:8-16 | Title and Content are each required, of at least 5 and at most 280 characters |
| CommentDtos.ValidUpdateCommentRequest | Dtos/Comment/UpdateCommentRequestDto.cs:11-19 | the same attributes on the update request |
| StockDtos.ValidCreateStockRequest | Core/Stocks.API/Dtos/Stock/CreateStockRequestDto.cs:8-30 | all attributes hold: three required strings of at most 10 characters, Purchase and MarketCap within `[Range(1,1000000000)]` after `int` conversion, LastDiv within `[Range(0.001,100)]` |
| CommentDtos.CreateCommentRequestValidity | Core/Stocks.API/Dtos/Comment/CreateCommentRequestDto.cs:8-16 | a valid create request has Title and Content of 5 to 280 characters; a blank field or a default (empty) request is invalid |
| CommentDtos.UpdateCommentRequestValidity | Dtos/Comment/UpdateCommentRequestDto.cs:11-19 | the same bounds for an update request; a blank Content makes it invalid |
| Numerics.RoundHalfToEven | Core/Stocks.API/Dtos/Stock/CreateStockRequestDto.cs:17 | the `decimal` is rounded to an integer at most half a unit away, and a tie goes to the even neighbour |
| Validation.RangeInt32 | Core/Stocks.API/Dtos/Stock/CreateStockRequestDto.cs:17 | the `int` form of `[Range]` throws exactly when the converted value is not an `int`, and passes exactly when it lies within both bounds |
| Validation.DecimalRangeToOneBillion | Core/Stocks.API/Dtos/Stock/CreateStockRequestDto.cs:17-18 | `[Range(1,1000000000)]` on a `decimal` passes exactly for values in (0.5, 1000000000.5], and throws exactly below -2147483648.5 and from 2147483647.5 on |
| StockDtos.ValidCreateStockRequestBounds | Core/Stocks.API/Dtos/Stock/CreateStockRequestDto.cs:8-30 | a valid create request has non-blank strings of at most 10 characters, Purchase in (0.5, 1000000000.5], MarketCap in [1, 10^9] and LastDiv in [0.001, 100], and its validation does not throw |
| StockDtos.InvalidCreateStockRequests | Core/Stocks.API/Dtos/Stock/CreateStockRequestDto.cs:8-30 | an over-long or blank string, a zero dividend, a purchase of 0.5 or less, a market cap below 1, a conversion that throws, or a default request each make the request invalid |
| StockDtos.CreateStockRequestRangeEdges | Core/Stocks.API/Dtos/Stock/CreateStockRequestDto.cs:16-30 | a purchase price of 0.6 rounds to 1 and passes, 0.5 rounds to 0 and fails, 1000000000.5 rounds to 10^9 and passes; a market cap of 3000000000 makes validation throw |
| CommentMapper.ToCommentDto | Core/Stocks.API/Mappers/CommentMapper.cs:13-25 | the DTO carries the comment's five fields unchanged |
| CommentMapper.ToComment | Core/Stocks.API/Mappers/CommentMapper.cs:26-36 | the new entity takes Title and Content from the request and the route's stock id; its id is still 0 |
| CommentMapper.MapCommentDtoToComment | Core/Stocks.API/Mappers/CommentMapper.cs:37-41 | Title and Content are overwritten; id, creation time and stock id are kept |
| CommentMapper.CreateCommentRoundTrip | Core/Stocks.API/Mappers/CommentMapper.cs:13-36 | mapping a create request to an entity and back to a DTO keeps the text and the stock id |
| CommentMapper.MapCommentDtoToCommentIdempotent | Core/Stocks.API/Mappers/CommentMapper.cs:37-41 | the update is idempotent, and the later of two updates wins |
| StockMapper.ProjectComments | Core/Stocks.API/Mappers/StockMapper.cs:19 | `Comments.Select(ToCommentDto)` maps each comment, in order |
| StockMapper.ToStockDto | Core/Stocks.API/Mappers/StockMapper.cs:8-22 | the DTO carries id and the six data fields unchanged, and one comment DTO per comment in order |
| StockMapper.ToStock | Core/Stocks.API/Mappers/StockMapper.cs:24-36 | the new entity copies the six data fields, has id 0 and no comments |
| StockMapper.MapStockDtoToStockModel | Core/Stocks.API/Mappers/StockMapper.cs:38-46 | exactly the six data fields are overwritten; id and comments are kept |
| StockMapper.CreateStockRoundTrip | Core/Stocks.API/Mappers/StockMapper.cs:8-36 | a create request mapped to an entity, numbered, and mapped back returns the request's fields, the assigned id and no comments |
| StockMapper.MapStockDtoToStockModelIdempotent | Core/Stocks.API/Mappers/StockMapper.cs:38-46 | the update is idempotent, and the later of two updates wins |
| Paging.Skip | Test/Mocks/MockStockRepository.cs:115 | `Skip(n)` is the suffix of the list without its first n entries, the whole list when n is not positive, and empty when n reaches its length |
| Paging.Take | Test/Mocks/MockStockRepository.cs:115 | `Take(n)` is the prefix of the list with its first n entries, empty when n is not positive, and the whole list when n reaches its length |
| Paging.SkipCount | Test/Mocks/MockStockRepository.cs:113 | the unchecked offset equals (PageNumber - 1) * PageSize whenever that product is an `int` |
| Paging.Page | Test/Mocks/MockStockRepository.cs:113-115 | a page holds at most as many entries as the list, at most PageSize, and none when PageSize is not positive |
| Paging.PageBounds | Test/Mocks/MockStockRepository.cs:113-115 | a page holds at most PageSize stored entries, none when PageSize is not positive |
| Paging.PageRange | Test/Mocks/MockStockRepository.cs:113-115 | every page is a contiguous run of the list, whatever the page number and size |
| Paging.FirstPageIsWhole | Test/Mocks/MockStockRepository.cs:113-115 | page 1 of a size holding everything is the whole list |
| Paging.PageIsSlice | Test/Mocks/MockStockRepository.cs:113-115 | without overflow, page n is the slice starting at (n - 1) * PageSize |
| Paging.NonPositivePageIsFirstPage | Test/Mocks/MockStockRepository.cs:113-115 | a page number of zero or less yields the first page, because `Skip` ignores a negative count |
| Paging.PagesReassemble | Test/Mocks/MockStockRepository.cs:113-115 | pages 1 to n laid end to end are the first n * PageSize entries |
| Paging.OverflowingPageRepeatsFirst | Test/Mocks/MockStockRepository.cs:113-115 | the 32-bit offset of page 107374184 of size 20 wraps to a negative number, so in the test double's in-memory query that page repeats the first |
| Sorting.Sort | Test/Mocks/MockStockRepository.cs:89 | `OrderBy` returns a permutation of its input |
| Sorting.SortSorted | Test/Mocks/MockStockRepository.cs:89 | under a total preorder, the result is in order |
| Sorting.SortStable | Test/Mocks/MockStockRepository.cs:89 | tied elements keep their input order (LINQ's sort is stable) |
| Sorting.FlippedSortIsReversed | Test/Mocks/MockStockRepository.cs:89 | with no ties, `OrderByDescending` is the reverse of `OrderBy` |
| Ordering.OrderBy | Test/Mocks/MockStockRepository.cs:87-110 | `OrderBy`/`OrderByDescending` on a key returns as many stocks as it is given, the same ones as often |
| Ordering.KeyTiedIffEqual | Test/Mocks/MockStockRepository.cs:87-110 | two stocks tie under a key exactly when their key values are equal |
| Ordering.OrderBySortedPermutation | Test/Mocks/MockStockRepository.cs:87-110 | ordering by any of the six keys, either way, yields a permutation in key order |
| Ordering.OrderByStable | Test/Mocks/MockStockRepository.cs:87-110 | stocks with equal keys keep their stored order, ascending or descending |
| Ordering.DescendingIsReversedAscending | Test/Mocks/MockStockRepository.cs:87-110 | with distinct keys, the descending listing is the ascending one reversed |
| StockQuery.Where | Test/Mocks/MockStockRepository.cs:77 | `Where` keeps exactly the elements satisfying the predicate |
| StockQuery.WhereWhere | Test/Mocks/MockStockRepository.cs:75-83 | the company-name filter followed by the symbol filter is the one filter asking for both |
| StockQuery.ListingSound | Test/Mocks/MockStockRepository.cs:71-116 | every listed stock is stored and passes the filter; a page holds at most PageSize stocks |
| StockQuery.ListingCompleteOnFirstPage | Test/Mocks/MockStockRepository.cs:71-116 | on a first page holding everything, every passing stock is listed, each as often as stored |
| StockQuery.ListingSorted | Test/Mocks/MockStockRepository.cs:85-115 | with a sort key, the page is in key order, reversed when descending |
| StockQuery.MockMatches | Test/Mocks/MockStockRepository.cs:75-83 | a stock passes the double's filters when each non-blank filter occurs in its field, ignoring case |
| StockQuery.MockGetAll | Test/Mocks/MockStockRepository.cs:71-116 | the double's listing holds at most as many stocks as are stored, at most PageSize, and none when PageSize is not positive |
| StockQuery.MockSortKey | Test/Mocks/MockStockRepository.cs:85-111 | a key is chosen only when Sortby equals its name ignoring case; none when Sortby is blank or matches no name |
| StockQuery.MockFilteredIsWhere | Test/Mocks/MockStockRepository.cs:75-83 | the two guarded filters are one filter; a blank filter lets everything through |
| StockQuery.MockOrderedIsOrdered | Test/Mocks/MockStockRepository.cs:85-111 | the `else if` chain orders by the key `MockSortKey` selects, or not at all |
| StockQuery.MockGetAllIsListing | Test/Mocks/MockStockRepository.cs:71-116 | the double's query is the generic listing with its filter and key |
| StockQuery.MockGetAllSpec | Test/Mocks/MockStockRepository.cs:71-116 | the double lists only matching stored stocks, at most a page, all matches on a first page holding everything, in key order or else in stored order |
| StockQuery.MockDefaultListingIsPrefix | Core/Stocks.API/Helpers/QueryObject.cs:10-15 | the default query lists the first twenty stocks in stored order |
| StockQuery.RepositoryMatches | Core/Stocks.API/Repository/StockRepository.cs:37-45 | a row passes the repository's filters when each non-empty filter occurs in its field, case-sensitively |
| StockQuery.RepositoryGetAll | Core/Stocks.API/Repository/StockRepository.cs:33-60 | the query fails exactly when the offset is negative or the page size is below one; otherwise it lists at most as many rows as are stored and at most PageSize |
| StockQuery.RepositorySortKey | Core/Stocks.API/Repository/StockRepository.cs:46-56 | only Symbol and CompanyName are recognised, ignoring case |
| StockQuery.RepositorySortIsSingleKey | Core/Stocks.API/Repository/StockRepository.cs:46-56 | the two independent `if`s apply at most one sort, because no string equals both names |
| StockQuery.RepositoryFilteredIsWhere | Core/Stocks.API/Repository/StockRepository.cs:37-45 | the two `Length > 0` guarded filters are one filter |
| StockQuery.RepositoryGetAllIsListing | Core/Stocks.API/Repository/StockRepository.cs:33-60 | where the database accepts the paging clause, the repository's query is the generic listing with its filter and key; elsewhere it fails |
| StockQuery.RepositoryGetAllSpec | Core/Stocks.API/Repository/StockRepository.cs:33-60 | the query fails exactly when the database refuses the paging clause; otherwise it lists only matching stored stocks, at most a page, all matches on a first page holding everything, in key order or else in stored order |
| StockQuery.RepositoryPagingFailures | Core/Stocks.API/Repository/StockRepository.cs:57-59 | a page size below one fails; a page number below one fails when its offset stays in range; page 107374184 of size 20 fails; every page from one on whose offset is an `int` is served |
| StockQuery.RepositoryDefaultListingIsPrefix | Core/Stocks.API/Helpers/QueryObject.cs:10-15 | the default query succeeds and lists the first twenty rows in stored order |
| StockQuery.RepositoryMatchImpliesMockMatch | Core/Stocks.API/Repository/StockRepository.cs:37-45 | a stock the case-sensitive filters keep is kept by the double's case-insensitive ones |
| MockRepositories.MockStockRepository.constructor | Test/Mocks/MockStockRepository.cs:16-52 | the double starts with AAPL, MSFT and GOOGL under ids 1 to 3 |
| MockRepositories.MockStockRepository.GetByIdAsync | Test/Mocks/MockStockRepository.cs:118-122 | null exactly when no stored stock has the id, otherwise the first stored stock with it |
| MockRepositories.MockStockRepository.StockExists | Test/Mocks/MockStockRepository.cs:124-127 | true exactly when a stored stock has the id, i.e. when `GetByIdAsync` finds one |
| MockRepositories.MockStockRepository.GetAllAsync | Test/Mocks/MockStockRepository.cs:71-116 | the listing holds only matching stored stocks, at most a page, and all of them on a first page holding everything |
| MockRepositories.MockStockRepository.CreateAsync | Test/Mocks/MockStockRepository.cs:54-59 | an empty list throws and stores nothing; otherwise the stock is numbered max + 1 (wrapping) and appended; below `int.MaxValue` the id is fresh, the stock is found by it and ids stay unique and positive |
| MockRepositories.MockStockRepository.DeleteAsync | Test/Mocks/MockStockRepository.cs:61-69 | returns what `GetByIdAsync` found and removes exactly that record; afterwards the id is gone |
| MockRepositories.MockStockRepository.UpdateAsync | Test/Mocks/MockStockRepository.cs:129-145 | null and no change when the id is absent; otherwise the six fields of that record are overwritten in place and the updated stock is returned |
| MockRepositories.MockCommentRepository.constructor | Test/Mocks/MockCommentRepository.cs:15-42 | the double starts with three comments on stock 1 under ids 1 to 3 |
| MockRepositories.MockCommentRepository.GetAllAsync | Test/Mocks/MockCommentRepository.cs:61-64 | a copy of every stored comment, in stored order |
| MockRepositories.MockCommentRepository.GetByIdAsync | Test/Mocks/MockCommentRepository.cs:66-70 | null exactly when no stored comment has the id, otherwise the first stored comment with it |
| MockRepositories.MockCommentRepository.CreateAsync | Test/Mocks/MockCommentRepository.cs:44-49 | an empty list throws and stores nothing; otherwise the comment is numbered max + 1 and appended, with the same freshness guarantees as for stocks |
| MockRepositories.MockCommentRepository.DeleteAsync | Test/Mocks/MockCommentRepository.cs:51-59 | returns what `GetByIdAsync` found and removes exactly that record |
| MockRepositories.MockCommentRepository.UpdateAsync | Test/Mocks/MockCommentRepository.cs:72-84 | null and no change when the id is absent; otherwise Title and Content of that record are overwritten |
| Repository.WithoutComments | Core/Stocks.API/Repository/StockRepository.cs:24 | a stock loaded without `Include` keeps its id and data fields and has no comments |
| Repository.StockRepository.constructor | Core/Stocks.API/Repository/StockRepository.cs:11-13 | the repository starts on the table it is given, whose ids are unique |
| Repository.StockRepository.GetByIdAsync | Core/Stocks.API/Repository/StockRepository.cs:62-65 | null exactly when no row has the id, otherwise the first stored row with it (comments included) |
| Repository.StockRepository.StockExists | Core/Stocks.API/Repository/StockRepository.cs:67-70 | true exactly when a row has the id |
| Repository.StockRepository.GetAllAsync | Core/Stocks.API/Repository/StockRepository.cs:33-60 | the query throws exactly when the database refuses the paging clause; otherwise the listing holds only matching rows, at most a page, and all of them on a first page holding everything |
| Repository.StockRepository.CreateAsync | Core/Stocks.API/Repository/StockRepository.cs:15-20 | the row is stored under the generated id and returned; if that id was free, it is found by it and ids stay unique |
| Repository.StockRepository.DeleteAsync | Core/Stocks.API/Repository/StockRepository.cs:22-31 | null and no change when the id is absent; otherwise the first row with the id is removed and returned without its comments |
| Repository.StockRepository.UpdateAsync | Core/Stocks.API/Repository/StockRepository.cs:72-80 | null and no change when the id is absent; otherwise `MapStockDtoToStockModel` is applied to the first row with the id, which keeps its comments in the table and is returned without them |
| Repository.CommentRepository.constructor | Core/Stocks.API/Repository/CommentRepository.cs:11-13 | the repository starts on the table it is given, whose ids are unique |
| Repository.CommentRepository.GetAllAsync | Core/Stocks.API/Repository/CommentRepository.cs:33-36 | every stored comment, in stored order |
| Repository.CommentRepository.GetByIdAsync | Core/Stocks.API/Repository/CommentRepository.cs:38-42 | null exactly when no row has the id, otherwise the first stored row with it |
| Repository.CommentRepository.CreateAsync | Core/Stocks.API/Repository/CommentRepository.cs:15-21 | the row is stored under the generated id and returned; if that id was free, it is found by it |
| Repository.CommentRepository.DeleteAsync | Core/Stocks.API/Repository/CommentRepository.cs:23-31 | null and no change when the id is absent; otherwise that row is removed and returned |
| Repository.CommentRepository.UpdateAsync | Core/Stocks.API/Repository/CommentRepository.cs:44-51 | null and no change when the id is absent; otherwise `MapCommentDtoToComment` is applied to that row, which is returned |
| StockControllerV1.StockController.GetAll | Core/Stocks.API/Controllers/V1/StockController.cs:20-27 | 500 exactly when the database refuses the paging clause; otherwise 200 with one DTO per listed stock, in listing order, at most a page |
| StockControllerV1.StockController.GetById | Core/Stocks.API/Controllers/V1/StockController.cs:29-36 | 404 exactly when no stock has the id, otherwise 200 with the DTO of the first stock with it |
| StockControllerV1.StockController.Create | Core/Stocks.API/Controllers/V1/StockController.cs:38-46 | the mapped stock is stored; the answer is 201 with the new id and a DTO repeating the request's fields |
| StockControllerV1.StockController.Update | Core/Stocks.API/Controllers/V1/StockController.cs:48-56 | always 200: a null body and no change when the id is absent; otherwise exactly the first stock with the id is updated in the table, and the DTO repeats the request's fields with no comments |
| StockControllerV1.StockController.Delete | Core/Stocks.API/Controllers/V1/StockController.cs:58-64 | always 204; the stock with the id, if any, is removed |
| CommentControllerV1.CommentController.GetAll | Controllers/V1/CommentController.cs:23-33 | 400 exactly when the model state is invalid, otherwise 200 with one DTO per comment in stored order |
| CommentControllerV1.CommentController.GetById | Controllers/V1/CommentController.cs:34-43 | 400 on an invalid model state; else 404 exactly when no comment has the id, otherwise 200 with the DTO of the first comment with it |
| CommentControllerV1.CommentController.Create | Controllers/V1/CommentController.cs:44-59 | 400 and nothing stored on an invalid model state or a missing stock; otherwise the comment is stored for that stock and the answer is 201 with its id |
| CommentControllerV1.CommentController.Update | Controllers/V1/CommentController.cs:60-70 | 400 on an invalid model state; 200 with a null body when the id is absent; otherwise exactly the first comment with the id is updated in the table, and the answer is 200 with its DTO |
| CommentControllerV1.CommentController.Delete | Controllers/V1/CommentController.cs:71-81 | 400 on an invalid model state; otherwise 204, and the comment with the id, if any, is removed |
| MockListingExamples.SeedUnsortedPages | Test/Repository/StockRepositoryTests.cs:18-37 | with no filter or sort, a page of ten lists the three seed stocks, and a page of two the first two |
| MockListingExamples.SeedFilteredByCompanyName | Test/Repository/StockRepositoryTests.cs:40-58 | the company-name filter "Apple" lists AAPL only |
| MockListingExamples.SeedFilteredBySymbol | Test/Repository/StockRepositoryTests.cs:61-79 | the symbol filter "MS", in either case, lists MSFT only |
| MockListingExamples.SeedSortedBySymbol | Test/Repository/StockRepositoryTests.cs:82-128 | sorting the seed by Symbol lists AAPL, GOOGL, MSFT ascending and MSFT, GOOGL, AAPL descending |

## Left out

- Authentication and authorisation (`[Authorize]`, the token service, the account controller), the V2 stock controller, and the start-up and seeding code are not part of this model.
- The earlier copy of the API at the repository root is not part of this model, except `Controllers/V1/CommentController.cs` and `Dtos/Comment/UpdateCommentRequestDto.cs`.
- The entity classes `Models/Stock.cs` and `Models/Comment.cs` are not part of this model. Their fields are taken from the mappers and repositories that read and write them.
- Asynchrony: every `async` call is modelled as a synchronous call, and concurrent requests are not modelled.
- The database: a table is the sequence of its rows, and that sequence is also the order in which an unsorted query returns them.
- Collation: the database compares strings under its collation. The model uses the ordinal order for sorting and for `Contains`.
- Eager loading: `Include(x => x.Comments)` is modelled as the `comments` field that every stored stock already carries.
- Repository.StockRepository.UpdateAsync: the repository is scoped to one request, so its context starts empty and the plain `FirstOrDefaultAsync` loads no comments. The returned stock has none (`WithoutComments`). A context that already tracked the comments would fill them in; that case is not modelled.
- Repository.StockRepository.DeleteAsync: the same; the returned stock has no comments. What the database does with the deleted stock's comments (cascade, set null or refusal) is not modelled; the comment table is left unchanged.
- StockQuery.RepositoryGetAll: SQL Server's refusal of `OFFSET`/`FETCH` is one `Failure`. The exact exception and message are not modelled. Every other database error, such as a lost connection, is not modelled either.
- Repository.StockRepository.CreateAsync: the id is an input that the database generates, so freshness is claimed only when the given id is not yet stored.
- Repository.CommentRepository.CreateAsync: the same for comment ids.
- Text.StrLe: string keys are sorted in ordinal order. LINQ to Objects sorts with the culture-sensitive default comparer, and the database with its collation.
- Text.Fold: `OrdinalIgnoreCase` folds ASCII letters only. Other letters compare case-sensitively.
- Text.IsWhiteSpace: the set is that of `char.IsWhiteSpace`. Strings are sequences of UTF-16 code units as characters, with no surrogate handling.
- Null strings and null DTO bodies are not modelled. A string is always present, as the property initialisers make it.
- StockControllerV1.StockController.Create: the automatic 400 that `[ApiController]` returns for an invalid body is not modelled. The action has no model-state check of its own.
- StockControllerV1.StockController.Update: the same automatic 400 is not modelled.
- The model state of the comment controller is an input (`modelStateValid`). The framework computes it from the validation attributes, and that connection is not modelled.
- Validation.InRange: the `double` form of `[Range]` (`[Range(0.001,100)]` on LastDiv) converts the value and the bounds to `double`. The model compares exact reals, so a value within about 1e-19 of a bound may be classified differently.
- StockDtos.CreateStockRequestValidationThrows: an `OverflowException` from the `int` form of `[Range]` escapes validation. The model names the inputs where it happens, but the 500 answer it causes is not connected to a controller action.
- Models.DateTime: `CreatedOn` defaults to the current time. The clock readings are inputs: `createdOn` in the comment mapper, and one reading per seed comment (`t1`, `t2`, `t3`) for the comment double.
- Object identity: the repositories hand out references to stored entities, and callers that change a returned entity change the stored one. The model replaces a record by value at its position; aliasing is not modelled.
- MockRepositories.MockStockRepository.UpdateAsync: the double assigns the six fields itself rather than calling the mapper. The model reuses `MapStockDtoToStockModel`, which makes the same six assignments.
- MockRepositories.MockStockRepository.CreateAsync: when the largest id is `int.MaxValue`, the wrapped id is modelled, but no freshness is claimed.
- MockRepositories.MockCommentRepository.CreateAsync: the same for comment ids.
- `CreatedAtAction`'s route-name lookup and the `Location` header are reduced to the id the header points at.
