# The auction worker, verified

A Dafny model of the auction worker and of the programs around it: the auction in its Go, C++ and
Python forms, the Go server that runs several auctions at once over one locked connector, the
generator of the tables, the load harness that sends the requests, and the `Variant` value class
of the bundled MySQL connector headers. `dafny verify dfyconfig.toml` checks everything.

## How it is laid out

- `Database.dfy` holds the tables and the lookups; `AuctionSpec.dfy` says what an auction
  promises without any pipeline: which advertisers may serve, which ad represents each, and which
  representative wins (`IsRepresentative`, `IsWinner`, `Winner`).
- `Metrics.dfy`, `Targeting.dfy`, `Blocking.dfy`, `Sorting.dfy` hold the parts the pipelines call.
  Each language's arithmetic is its own: Go wraps at 64 bits and rounds to a double, C++ wraps at
  32 bits, Python starts its search from `sys.maxsize`.
- `Pipeline.dfy` holds the stages the three languages write alike; `GoAuction.dfy`,
  `CppAuction.dfy` and `PythonAuction.dfy` hold the three auctions, each proved to compute
  `Winner` under its own rules.
- `Views.dfy` compares two auctions at the prices the ads have and at every price. `AuctionLaws.dfy`
  says when arithmetic, tie-breaks and features of 0 show in the answer, and how the winner moves
  with the tables and the request. `Document.dfy` holds the documents' own rules and where the
  programs' rules depart from them; `DocumentedWinner` is who wins by the documents.
  `Agreement.dfy` says exactly when Go, C++ and Python have that winner.
- `AuctionSteps.dfy` and `RequestServer.dfy` cut the Go auction at its queries and interleave it.
- `Generator.dfy`, `LoadHarness.dfy`, `Variants.dfy` model the remaining three programs; `Sums.dfy`
  has the sums they and the server keep. `EndToEnd.dfy` puts generator, server and harness together.

Prices are decimal(15, 4) and are held as integers, in ten-thousandths. A random choice, a hash
map's iteration order, the result of an unstable sort, the server's replies, a thread schedule and
an allocator's choice of address are all arbitrary, so what is proved holds for each of them.

## What came out

- Two rules of the programs are not the documents', in any of the three languages. The document on
  domain blocking excludes the empty substring; in the code an empty block string blocks every
  advertiser (`EmptyStringBlocksAll`, and on any generated tables `EmptyStringOnGenerated`). The
  document on category blocking decides by the intersection alone; the code never blocks an
  advertiser without category rows, and so serves ALLOW advertisers without any (`UnlistedWins`).
  `RulesMeet` is exactly when neither shows in the representatives. The model follows the code.
- Go has the documented winner wherever the rules meet and every difference of features has a double
  of its own, which all up to 2^53 have. At every price it has exactly when the rules meet and no
  other ad of an advertiser rounds, or wraps around at 64 bits, to come before its documented
  representative. A 64-bit zone feature can overflow the subtraction: `TargetingsDisagree` has one.
- C++, where the rules meet and differences fit 32 bits, always bids when the documents do and at
  their price. It breaks equal prices by advertiser id, not by ads id as documented: its ad is the
  documented one exactly when, among the ads at the top price, the lowest ads id and the lowest
  advertiser id belong together. No request shows this at any price exactly when no two ads that
  can meet in one have ids that run against their advertisers' ids. The generator's tables always
  satisfy this, and `CppBreaksTiesOtherwise` gives tables that do not.
- Python takes a feature of 0 for a missing one; `PythonLosesZero` is one ad it loses. No request
  shows this exactly when no ad that can serve one has feature 0; for one request, no price shows
  it exactly when no representative has feature 0; and at the given prices it does not show
  exactly when the winner's feature is not 0 and the ads standing in for those of feature 0 do not
  beat it. The generator can always draw features for which Python is silent where Go bids.
- The document on the tables gives prices from -10 to 10; the generator draws 0.01 to 100. Nothing
  here depends on the range.
- Workers of the load harness may leave while others are about to put requests back, and still no
  request is lost as long as there is at least one worker. On generated tables and documented
  requests every finished run leaves the same answers, whichever of Go, C++ and, with no feature 0,
  Python replies, so the comparison of checksums never depends on the schedule.

## Model

| member | source | states |
|---|---|---|
| Database.IncreasingIdsUnique | golang/connector/fetch_model_from_db.go:8-13 | Two lists of ads in `ads_id` order with the same members are the same list. |
| Database.FetchesCategories | golang/connector/fetch_model_from_db.go:33-43 | A category query answers with the rows there are, or with nothing exactly when there are none. |
| Metrics.Wrap32 | cpp/src/targeting/feature_targeting.cpp:15-17 | A 32-bit difference is the true one exactly when it fits, and otherwise off by a multiple of 2^32. |
| Metrics.Round53 | golang/targeting/feature_targeting.go:13 | Conversion to float64 is exact up to 2^53 and never more than doubles its argument. |
| Metrics.Round53Exact | golang/targeting/feature_targeting.go:13 | A number survives conversion to float64 if and only if 53 significant bits are enough for it. |
| Metrics.Round53Increases | golang/targeting/feature_targeting.go:13 | Conversion to float64 never turns an order round. |
| Metrics.Float64Nearest | golang/targeting/feature_targeting.go:13 | Conversion to float64 gives a number with 53 significant bits, none is nearer, and of two as near it gives the one whose last bit is 0. |
| Metrics.DistanceIsTrue | golang/targeting/feature_targeting.go:10-18 | Each language's distance is the true one if and only if it is in reach: C++ on 32-bit values below 2^31, Python up to `sys.maxsize`, Go up to 2^63 when 53 bits hold it. |
| Metrics.OrderKept | cpp/src/targeting/feature_targeting.cpp:15-17 | When each arithmetic still puts a truly nearer distance first, both ways: Go unless the two round alike or the farther wraps around at 64 bits, Python unless neither beats `sys.maxsize`, C++ unless the farther wraps around at 32 bits. |
| Metrics.DocumentedInReach | doc/request.md:23 | The documented range of features is within the reach of all three. |
| Targeting.ArgMin | cpp/src/targeting/feature_targeting.cpp:14-18 | The index found is strictly smaller than everything before it and no larger than anything after it. |
| Targeting.ArgMinIs | cpp/src/targeting/feature_targeting.cpp:14-18 | Any index with that property is the one found. |
| Targeting.GoFeatureTargeting | golang/targeting/feature_targeting.go:9-20 | The loop from MaxFloat64 returns the first nearest feature under double distances; the starting bound is always beaten. |
| Targeting.PythonFeatureTargeting | python/targeting/feature_targeting.py:7-25 | The loop from `sys.maxsize` returns the first nearest feature under distances clamped at that bound. |
| Targeting.TargetingsAgree | python/targeting/feature_targeting.py:17-25 | Within its own reach each language chooses the true first minimum. |
| Targeting.TargetingExactly | golang/targeting/feature_targeting.go:10-18 | A language chooses the true first minimum if and only if its arithmetic puts that before every other feature. |
| Targeting.GoTargetingExactly | golang/targeting/feature_targeting.go:9-20 | On 64-bit integers Go chooses the true first minimum if and only if no earlier feature rounds to the same double distance and none wraps around to something nearer. |
| Targeting.PythonTargetingExactly | python/targeting/feature_targeting.py:17-25 | Python does if and only if that is the first feature or beats `sys.maxsize`. |
| Targeting.CppTargetingExactly | cpp/src/targeting/feature_targeting.cpp:14-18 | C++ does, on 32-bit features, if and only if no feature 2^31 or more away wraps around to something nearer. |
| Targeting.TargetingsDisagree | cpp/src/targeting/feature_targeting.cpp:15-17 | Beyond its reach each of the three departs from the true first minimum, with inputs; Go both by rounding and by overflow. |
| Blocking.GoCategoryBlocking | golang/blocking/category_blocking.go:10-23 | The loop and switch decide `CategoryBlocked`; an unknown type blocks nothing. |
| Blocking.CppCategoryBlocking | cpp/src/blocking/category_blocking.cpp:15-31 | The same decision, and termination exactly on an unknown type. |
| Blocking.PythonCategoryBlocking | python/blocking/category_blocking.py:6-24 | The same decision for the two types the enum admits. |
| Blocking.BlockingIsIntersection | golang/blocking/category_blocking.go:11-21 | DENY blocks on a non-empty intersection of the two category sets, ALLOW on an empty one, and any other type never. |
| Sorting.UnstableSort | golang/server/auction.go:97-102 | In place: sorted by the comparator and a permutation. |
| Sorting.StableSort | cpp/src/server/auction.cpp:106 | In place: sorted, a permutation, and equal elements in their old order. |
| Sorting.StableSortUnique | cpp/src/server/auction.cpp:106 | Only one list is sorted, a permutation, and keeps equal elements in their old order. |
| Sorting.SortUnique | golang/server/auction.go:97-102 | With distinct ids only one permutation is sorted by the comparator, so an unstable sort has no freedom left. |
| Sorting.SwapKeepsTies | cpp/src/server/auction.cpp:106 | Exchanging neighbours strictly out of order changes no sequence of tied elements. |
| Sorting.SortedHead | golang/server/auction.go:107-108 | The first element of any sorted permutation is one that nothing precedes. |
| Sorting.StableHead | cpp/src/server/auction.cpp:111 | After a stable sort the first element is the earliest of those that nothing precedes. |
| Pipeline.FilterBySize | golang/server/auction.go:34-42 | Keeps exactly the ads whose size row has the zone's width and height, in `ads_id` order. |
| Pipeline.ContainsBlocked | golang/server/auction.go:50-55 | True exactly when some block string is a run of consecutive characters of the domain, at its start, middle or end. |
| Pipeline.FilterByDomain | golang/server/auction.go:44-60 | Keeps exactly the fitting ads whose advertiser exists and has an open domain, in order. |
| Pipeline.GroupAppend | golang/server/auction.go:63-73 | Appending an ad to its advertiser's list keeps each group in order, made of its own advertiser's ads, and complete. |
| Pipeline.GroupedEnd | golang/server/auction.go:62-73 | The keys are exactly the eligible advertisers with a fitting ad, and each group is all of that advertiser's fitting ads in order: they survive together or not at all. |
| Pipeline.StagesDetermined | golang/server/auction.go:34-73 | The lists the filters leave and the groups are determined by the tables and the request, whichever language makes them. |
| Pipeline.CollectFeatures | golang/server/auction.go:80-85 | Collects the features of a group, skipping ads without one. |
| Pipeline.FeaturesInOrder | golang/server/auction.go:80-85 | The collected features are exactly those of the group's ads with a feature row, in `ads_id` order. |
| Pipeline.WithIdMembers | golang/server/auction.go:88-92 | The matching loop finds exactly the ads with that id, and in an ordered group at most one. |
| Pipeline.TargetedIsRepresentative | golang/server/auction.go:79-94 | One turn of the targeting loop appends exactly the advertiser's representative: least distance, then lowest `ads_id`. |
| Pipeline.TargetedStep | golang/server/auction.go:79-94 | Visiting one more group, in any order, keeps the list to one ad per advertiser and to exactly the representatives of the visited groups. |
| AuctionSpec.ContainsExactly | golang/server/auction.go:52 | A string contains another if and only if that is one of its slices. |
| AuctionSpec.EligibleExactly | golang/server/auction.go:44-73 | An advertiser may serve if and only if it has a row, no slice of its domain is a block string, and it has no category rows, or allows and is asked for some, or denies and is asked for none, or has another type. |
| AuctionSpec.WinnerIs | golang/server/auction.go:96-114 | `Winner` is the one representative before all others: it is unique. |
| AuctionSpec.WinnerExists | golang/server/auction.go:104-114 | There is a winner exactly when some eligible advertiser has a fitting ad with a feature. |
| AuctionSpec.RepresentativeExists | golang/server/auction.go:86-93 | Every eligible advertiser with such an ad has a representative. |
| AuctionSpec.RepresentativeUnique | golang/server/auction.go:86-93 | No advertiser has two representatives. |
| Views.SameHere | golang/server/auction.go:86-108 | Two auctions on the same or different tables have the same winner if and only if the one upholds the winner of the other: it represents its advertiser there too and beats every further representative. |
| Views.SameAtAllPrices | golang/server/auction.go:86-108 | They have the same winner at every pricing of the ads if and only if they have the same representatives. |
| Views.EveryPricing | sql/schema.sql:28 | Any prices the ads could have are among the pricings spoken of. |
| GoAuction.GroupByAdvertiser | golang/server/auction.go:62-73 | The category loop leaves the complete groups of the eligible advertisers. |
| GoAuction.SelectRepresentatives | golang/server/auction.go:76-94 | For every iteration order of the map, the list is exactly the representatives, one per advertiser. |
| GoAuction.AnySortStartsWithWinner | golang/server/auction.go:96-108 | Whatever sorted permutation of the representatives the sort leaves, its first element is the winner. |
| GoAuction.Auction | golang/server/auction.go:15-116 | The response carries the request's id and the text and price of the winner by highest price and then lowest `ads_id`; there is none exactly when no eligible advertiser has a fitting ad with a feature. |
| CppAuction.GroupByAdvertiser | cpp/src/server/auction.cpp:68-81 | Terminates exactly when some open advertiser with categories has an unknown type; otherwise leaves the complete groups. |
| CppAuction.NearestInGroup | cpp/src/server/auction.cpp:96-99 | The chosen feature belongs to an ad of the group, so the assertion after `find` holds. |
| CppAuction.TargetGroup | cpp/src/server/auction.cpp:88-102 | One turn pushes back exactly the group's nearest ad. |
| CppAuction.SelectRepresentatives | cpp/src/server/auction.cpp:84-103 | The list is exactly the representatives, in increasing advertiser order. |
| CppAuction.StableSortStartsWithWinner | cpp/src/server/auction.cpp:105-111 | After the stable sort on price alone the first element is the representative with the highest price and then the lowest advertiser id. |
| CppAuction.Auction | cpp/src/server/auction.cpp:28-115 | It terminates exactly on a fitting, open ad of an undecidable type; otherwise the response carries the request's id and the text and price of the winner by price and then advertiser id, with no hypothesis on ids, or is none exactly when nobody can serve. |
| PythonAuction.FilterByDomain | python/server/auction.py:40-55 | Raises exactly when a fitting ad's advertiser has a type outside the enum; otherwise keeps the open ads. |
| PythonAuction.CollectFeatures | python/server/auction.py:74-79 | Raises exactly when an ad of the group has no feature row; otherwise collects the features other than 0. |
| PythonAuction.SelectRepresentatives | python/server/auction.py:70-87 | In insertion order: the representatives over the tables without zero features. |
| PythonAuction.PairKeySorts | python/server/auction.py:90 | The pair key in reverse sorts as Go's comparator does. |
| PythonAuction.Auction | python/server/auction.py:18-97 | It raises exactly on a fitting ad of a bad type or, if its advertiser is eligible, without a feature row; otherwise the response carries the request's id and the winner's text and price over the tables without zero features, or is none exactly when nobody can serve there. |
| AuctionLaws.MetricsAgree | golang/targeting/feature_targeting.go:13 | Where every contender is in the language's own reach, its arithmetic does not change the winner. |
| AuctionLaws.RepresentativesExactly | golang/server/auction.go:86-93 | A language's representatives are the true ones if and only if its arithmetic puts each true one before its advertiser's other contenders. |
| AuctionLaws.MetricsAgreeExactly | golang/targeting/feature_targeting.go:9-20 | A language's arithmetic changes the winner at no pricing if and only if it keeps the order of each true representative and its advertiser's other contenders. |
| AuctionLaws.MetricsAgreeHere | golang/targeting/feature_targeting.go:9-20 | At the tables' own prices it leaves the winner if and only if the true winner stays a representative and beats every representative the arithmetic adds. |
| AuctionLaws.TieBreaksAgreeHere | cpp/src/server/auction.cpp:105-111 | At the tables' own prices the two tie-breaks always give a winner or none alike and at the same price, and the same ad if and only if the lowest ads id and the lowest advertiser id at the top price belong together. |
| AuctionLaws.TieBreaksAgree | cpp/src/server/auction.cpp:105-111 | If ads of one size and price are ordered alike by advertiser id and by ads id, C++'s tie-break and Go's give the same winner for every request. |
| AuctionLaws.TieBreaksAgreeExactly | cpp/src/server/auction.cpp:105-111 | The tie-breaks agree under every pricing of the ads if and only if the representatives' ids follow their advertisers' ids. |
| AuctionLaws.MeetInSomeRequest | golang/server/auction.go:34-94 | Some request lets two ads both represent their advertisers if and only if the tables say so: some zone feature is nearest to both, and neither advertiser denies all that the other allows. |
| AuctionLaws.TieBreaksInTables | cpp/src/server/auction.cpp:105-111 | No request shows the tie-break at any pricing if and only if no two ads that can so meet have ids against the order of their advertisers' ids. |
| AuctionLaws.ZeroFeaturesMatterExactly | python/connector/fetch_model_from_db.py:95-97 | Without the zero features the representatives are the same if and only if none of them has feature 0. |
| AuctionLaws.ZeroFeaturesAtAllPrices | python/connector/fetch_model_from_db.py:95-97 | Dropping zero features changes the winner at no pricing if and only if no representative has feature 0. |
| AuctionLaws.ZeroFeaturesHere | python/connector/fetch_model_from_db.py:95-97 | At the tables' own prices it leaves the winner if and only if the winner's feature is not 0 and it beats the ads that stand in for those of feature 0. |
| AuctionLaws.ZeroFeaturesInTables | python/connector/fetch_model_from_db.py:95-97 | No request has a representative of feature 0 if and only if no ad with a size row and an advertiser row has feature 0. |
| AuctionLaws.SplitByAdvertiser | golang/server/auction.go:62-115 | The auction over the whole is the better of the auctions over two parts sharing no advertiser. |
| AuctionLaws.DeletingALoser | golang/server/auction.go:62-115 | Removing advertisers other than the winner's leaves the winner. |
| AuctionLaws.BlockingMore | golang/server/auction.go:44-60 | More block strings never raise the winning price, and keep the winner if its advertiser stays open. |
| AuctionLaws.ListsAreSets | golang/server/auction.go:46-73 | Only the sets of categories and of block strings matter, and a block string containing another one adds nothing. |
| AuctionLaws.PermutedOrRepeated | golang/server/auction.go:46-73 | Permuting or repeating entries of the request's lists changes nothing. |
| AuctionLaws.EmptyBlockString | golang/server/auction.go:51-55 | An empty block string leaves no winner. |
| Document.DocumentViewExactly | doc/final-auction.md:3-4 | `DocumentedWinner` is the winner by the documents' own rules on domains, categories, nearness and ties. |
| Document.DomainRuleVersusDocument | doc/domain-blocking.md:5-7 | The code's domain rule equals the document's if and only if no block string is empty or another one blocks the domain. |
| Document.EmptyBlockStringExactly | golang/server/auction.go:51-55 | The winner is the one under the document's domain rule if and only if no block string is empty or that rule leaves no winner. |
| Document.EmptyStringBlocksAll | golang/server/auction.go:51-55 | A request for which the documents have a winner and the code has none. |
| Document.CategoryRuleVersusDocument | doc/category-blocking.md:3-9 | The code's category rule equals the document's if and only if the advertiser is not an ALLOW advertiser without rows. |
| Document.CategoryAtAllPrices | golang/server/auction.go:66-72 | The category rule changes the winner at no pricing if and only if no representative belongs to such an advertiser. |
| Document.CategoryHere | golang/server/auction.go:66-72 | At the tables' own prices it leaves the winner if and only if the winner does not belong to such an advertiser. |
| Document.CategoryInTables | golang/server/auction.go:66-72 | No request has a representative of such an advertiser if and only if no ad with size and feature rows belongs to one. |
| Document.UnlistedWins | golang/server/auction.go:66-72 | Tables and a request for which the code has a winner and the documents none. |
| Document.RulesExactly | doc/final-auction.md:3-4 | Under one arithmetic the representatives are the documents' if and only if the rules meet: an empty block string blocks nobody the documents let win, and no advertiser that could serve is an ALLOW advertiser without rows. |
| Agreement.GoMeetsTheDocument | doc/final-auction.md:3-4 | Go's winner is the documented one: at the given prices if and only if Go upholds it; at every pricing if and only if the rules meet and no other contender rounds or wraps around to come before its advertiser's documented representative. |
| Agreement.CppMeetsTheDocument | doc/final-auction.md:3-4 | C++'s winner is the documented one if and only if it upholds the documents' top; where the rules meet and in reach it wins whenever the documents do and at their price, and with their ad if and only if the lowest ids at the top price belong together. |
| Agreement.PythonMeetsTheDocument | doc/final-auction.md:3-4 | Python's winner is the documented one: at the given prices if and only if Python upholds it; in reach, at every pricing if and only if the rules meet on the ads it sees and no documented representative has feature 0; where the rules meet on all, at the given prices if and only if the zero features spare the winner. |
| Agreement.CppBreaksTiesOtherwise | doc/final-auction.md:13-15 | Tables on which the rules meet and C++ picks the ad with the higher `ads_id`. |
| Agreement.PythonLosesZero | python/connector/fetch_model_from_db.py:95-97 | Tables of one ad, of feature 0, on which the rules meet, the documents have a winner and Python none. |
| Agreement.AskAll | doc/final-auction.md:3-15 | On one database: C++ terminates and Python raises exactly on the rows named; otherwise each response is the documents' when its language upholds their winner, and only then if ad texts are distinct; where the rules meet and in reach, Go's always is, and C++ bids whenever the documents do and at their price. |
| Agreement.GeneratedSuits | test/create_data.py:70-102 | Every generated database keeps ads in primary-key order, ties ordered and categories for every advertiser, and is in every reach. |
| Agreement.GeneratedNeverFails | test/create_data.py:70-102 | On generated tables C++ never terminates and Python never raises. |
| Agreement.GenerateAndServe | test/create_data.py:65-102 | For every outcome of the random choices no auction fails; without an empty block string Go and C++ both return the documented response, and so does Python unless a feature is 0; with one nobody bids. |
| Agreement.EmptyStringOnGenerated | golang/server/auction.go:51-55 | Whatever the generator draws for a positive size, there is a request with an empty block string for which the documents have a winner and the code none. |
| Agreement.PythonSilentOnGenerated | test/create_data.py:97-100 | Whatever the generator draws for a positive size, it could have drawn the same with every feature 0, and then there is a request for which the document and Go have a winner and Python has none. |
| Generator.ProhibitStringLengths | test/sample_data.py:9-77 | Every block string has 3 to 24 characters. |
| Generator.RandomProhibitString | test/create_data.py:14-32 | Terminates on every run of choices, block strings not being empty, with exactly `length` characters, none for a negative length: whole block strings in any order and at most one run of letters and digits too short for some block string. |
| Generator.SampleCategories | test/create_data.py:81-82 | Draws `k` distinct categories from 1 to 20. |
| Generator.Generate | test/create_data.py:65-102 | The tables are those of draws the program can make. |
| Generator.AdsesDrawn | test/create_data.py:87-100 | The ad drawn at each turn has the next id, the advertiser's id, and the price, text, size and feature drawn. |
| Generator.AdvertiserRow | test/create_data.py:71-85 | Every advertiser has the blocking type, domain and categories drawn for it. |
| Generator.AdRow | test/create_data.py:70-102 | In the whole tables every ad and feature row is the one drawn, numbered after all drawn before it. |
| Generator.GenerateAdses | test/create_data.py:87-100 | Numbers the ads on from `sum_ads` with one feature row each, from draws in range (see `AdsesDrawn`). |
| Generator.GeneratedShape | test/create_data.py:65-102 | Ads ids are 1 to the total once each, in one contiguous block per advertiser in advertiser order, with all rows in range and texts of 64 letters and digits. |
| Generator.BlocksInOrder | test/create_data.py:70-102 | Later ads belong to the same advertiser or a later one, which exists. |
| Generator.IdsFollowAdvertisers | test/create_data.py:70-102 | A lower advertiser id means lower ads ids. |
| Generator.LookupsSucceed | test/create_data.py:65-102 | Every lookup the auction makes for a generated ad finds a row. |
| Generator.FeaturesAreFree | test/create_data.py:97-100 | Whatever was drawn, there are draws for the same tables with any other features in range. |
| AuctionSteps.ResumeKeeps | golang/server/auction.go:28-84 | Going on from any fetch re-establishes what the loop has established. |
| AuctionSteps.TurnKeeps | golang/server/auction.go:44-94 | So does passing from one loop to the next. |
| AuctionSteps.SortKeeps | golang/server/auction.go:96-114 | Whatever the sort leaves, the finished response is the winner's. |
| AuctionSteps.SomeSort | golang/server/auction.go:97-102 | A result the sort's contract allows always exists. |
| RequestServer.InvStep | golang/server/server.go:23-31 | Every statement of every handler keeps: occupancy equals handlers in the callback and is within capacity; the lock is held by the one handler at the tables. |
| RequestServer.RunInv | golang/connector/mysql_connector.go:17-80 | So does every run. |
| RequestServer.EveryAnswerIsSequential | golang/server/server.go:25-30 | In every interleaving each finished handler holds the response sequential `auction` gives. |
| RequestServer.SlotsAndLock | golang/connector/mysql_connector.go:18-20 | In every reachable state the channel holds one value per handler in the callback, at most `N_Thread`; the handler at the tables, at most one, is the holder of the lock and has a slot. |
| RequestServer.OnlyFetchReads | golang/connector/mysql_connector.go:17-80 | No statement but the query depends on the tables. |
| RequestServer.FetchHoldsLock | golang/connector/mysql_connector.go:18-45 | In every reachable state whoever can query holds the lock. |
| RequestServer.RunsAreBounded | golang/server/server.go:25-30 | Every run ends: its length is bounded by the requests and the ads alone. |
| RequestServer.Progress | golang/server/server.go:24-30 | While a request is unfinished some handler can step. |
| RequestServer.DeadlockFreeExactly | golang/server/server.go:24-29 | The server never deadlocks if and only if the channel's capacity is positive. |
| RequestServer.StuckMeansServed | golang/server/server.go:24-30 | A run that cannot go on has given every request its sequential answer, the capacity being positive. |
| RequestServer.CanServe | golang/server/server.go:24-30 | From every reachable state there is a run that gives every request its sequential answer. |
| RequestServer.HttpServer.Send | golang/server/server.go:27 | When the channel has room, one more value and one more handler are in: their numbers stay equal. |
| RequestServer.HttpServer.Receive | golang/server/server.go:29 | The channel is never empty when a callback has returned; the handler leaves with the sequential answer and takes one value with it. |
| RequestServer.HttpServer.LockMutex | golang/connector/mysql_connector.go:18 | Once taken, exactly this handler is at the tables. |
| RequestServer.HttpServer.QueryTables | golang/connector/mysql_connector.go:37-45 | Whoever queries holds the lock, and gets the rows of the query its auction is at. |
| RequestServer.HttpServer.UnlockMutex | golang/connector/mysql_connector.go:50 | Only the holder unlocks, and then nobody is at the tables. |
| RequestServer.Serve | golang/server/server.go:23-31 | The handlers end where the schedule leads, and every finished request has its sequential answer. |
| LoadHarness.CopiesStep | test/calculate_performance.py:180-209 | No statement changes how often a request is queued, in a worker's hands or answered. |
| LoadHarness.InvStep | test/calculate_performance.py:180-209 | Every statement keeps the pool's invariant, including that once every worker is out the queue is empty. |
| LoadHarness.RunInv | test/calculate_performance.py:211-214 | In every run of one or more workers. |
| LoadHarness.NothingLost | test/calculate_performance.py:180-214 | In every run requests are conserved; when all workers have left, and when the bar has stopped, each has been answered exactly once. |
| LoadHarness.BarStep | test/calculate_performance.py:157-172 | The bar stops, on either of its conditions, only when every request is answered. |
| LoadHarness.BarCheckExactly | test/calculate_performance.py:171-172 | The bar stops if and only if the count it read is the number of requests or every worker is gone. |
| LoadHarness.BarRoundStops | test/calculate_performance.py:157-172 | Once every request is answered, or every worker is gone, one round of the bar stops it. |
| LoadHarness.RunsAreBounded | test/calculate_performance.py:180-209 | The workers' steps in any run are at most three per request, two per worker and four per failure. |
| LoadHarness.Progress | test/calculate_performance.py:183-209 | Until every worker is gone some worker can step. |
| LoadHarness.CanFinish | test/calculate_performance.py:180-214 | From every reachable state the pool can go on until every worker is gone and the bar has stopped. |
| LoadHarness.AliveIsLastSign | test/calculate_performance.py:191-198 | In every run the server counts as dead exactly when the last sign of it was a post that raised. |
| LoadHarness.AnsweredExactly | test/calculate_performance.py:157-214 | Every run that is over has answered each request exactly once if and only if there is a worker or nothing to answer. |
| LoadHarness.AnswersAreReplies | test/calculate_performance.py:191-219 | If every answered post is answered by a function of its request, a run that is over leaves exactly its image of the requests, whatever the schedule and the failures. |
| LoadHarness.Harness.TakeRequest | test/calculate_performance.py:184-189 | Takes the head off the queue, or leaves only when the queue is empty; the invariant is kept. |
| LoadHarness.Harness.PostRequest | test/calculate_performance.py:191-196 | Whatever comes back, the request stays in hand and the invariant is kept. |
| LoadHarness.Harness.SettleReply | test/calculate_performance.py:194-209 | Appends the answer with its request, or puts the request back at the end of the queue; queue and answers together gain it exactly once. |
| LoadHarness.Harness.LeaveLoop | test/calculate_performance.py:186-189 | When the last worker is out, the queue is empty and each request has been answered exactly once. |
| LoadHarness.Harness.WatchProgress | test/calculate_performance.py:158-172 | The bar stops if and only if the count it read is the number of requests or every worker is gone, and then each request has been answered exactly once. |
| LoadHarness.Interleave | test/calculate_performance.py:211-214 | The answers are those the schedule leads to; no request is answered too often, and all are when the pool is over. |
| EndToEnd.TextsTellApart | test/calculate_performance.py:199-207 | A bid is recorded as the server writes it, and if it writes no two bids alike and none as no bid, the records are equal exactly when the responses are. |
| EndToEnd.DocumentedReplyExactly | doc/response.md:11-24 | The documented record is the winner's text and price under the request's id, or no bid. |
| EndToEnd.ServerReplies | golang/server/server.go:25-30 | Whatever requests it serves beside it and however its handlers are interleaved, the Go server finishes a request with the text that Go's rules give. |
| EndToEnd.ResultsAreDocumented | test/calculate_performance.py:211-242 | On generated tables, for requests of documented feature without empty block strings, every finished run of the harness whose answers follow the rules of Go, C++ or, where no feature is 0, Python leaves exactly the documented answers, whatever the workers, the schedule and the failures. |
| EndToEnd.ServerResultsAreDocumented | test/calculate_performance.py:211-242 | The same with every answer taken from some run of the Go server on those tables, whatever the interleaving of its handlers. |
| Variants.SameTypeExactly | cpp/lib/cppconn_include/cppconn/variant.h:64-97 | Content can be read and written as a type if and only if it has that type. |
| Variants.OwnedWith | cpp/lib/cppconn_include/cppconn/variant.h:261-289 | A new Variant on fresh cells keeps one-to-one ownership. |
| Variants.OwnedWithout | cpp/lib/cppconn_include/cppconn/variant.h:291-296 | Deleting a Variant's impl and content keeps ownership of the rest. |
| Variants.ValuesWritten | cpp/lib/cppconn_include/cppconn/variant.h:312-315 | A write through one Variant's content changes no other's value. |
| Variants.NothingLeaks | cpp/lib/cppconn_include/cppconn/variant.h:291-310 | As many impls and content cells as live Variants, each reached from one. |
| Variants.Memory.DestroyContent | cpp/lib/cppconn_include/cppconn/variant.h:134-140 | Frees the content once and clears the pointer. |
| Variants.Memory.CopyItems | cpp/lib/cppconn_include/cppconn/variant.h:243-254 | The list copy loop yields an equal list in a fresh cell. |
| Variants.Memory.CopyEntries | cpp/lib/cppconn_include/cppconn/variant.h:187-199 | The map copy loop yields an equal map in a fresh cell. |
| Variants.Memory.CopyContent | cpp/lib/cppconn_include/cppconn/variant.h:142-144 | The copy holds the original's content in a cell of its own. |
| Variants.Memory.Clone | cpp/lib/cppconn_include/cppconn/variant.h:114-130 | A fresh impl with its own copy of the content; the original untouched. |
| Variants.Memory.ConstructVariant | cpp/lib/cppconn_include/cppconn/variant.h:261-289 | The new Variant holds the value, the others what they held. |
| Variants.Memory.CopyVariant | cpp/lib/cppconn_include/cppconn/variant.h:298-302 | The new Variant holds the original's value. |
| Variants.Memory.AssignVariant | cpp/lib/cppconn_include/cppconn/variant.h:304-310 | The left side takes the right side's value, self-assignment included. |
| Variants.Memory.DestroyVariant | cpp/lib/cppconn_include/cppconn/variant.h:291-296 | The Variant and its cells are gone, the others hold what they held. |
| Variants.RunOperations | cpp/lib/cppconn_include/cppconn/variant.h:258-319 | Every scoped sequence of operations is free of memory faults, computes what plain values would, and leaves one impl and one content cell per live Variant. |
| Variants.Memory.PerformAll | cpp/lib/cppconn_include/cppconn/variant.h:258-319 | From any memory with one-to-one ownership: every scoped sequence of operations keeps it and computes what plain values would, and a Variant the sequence spares still reaches the content it held. |
| Variants.CopyAmid | cpp/lib/cppconn_include/cppconn/variant.h:298-310 | On the heap, after any operations, a copy holds what its original holds, and over every further sequence that spares one of the two, that one keeps it. |
| Variants.SparedKeepsValue | cpp/lib/cppconn_include/cppconn/variant.h:258-319 | A plain value that nobody assigns, writes or destroys stays over every sequence of operations on the others. |

## Left out

- Database access: connections, failed pings, row decoding and SQL. A query is a lookup in the tables; the database is reachable and does not change while requests are served.
- A NULL `category_blocking_type`, which the schema allows and the documents exclude.
- Conversion of decimal prices to doubles and their formatting: fifteen-digit decimals keep their order as doubles, so the order of integer prices is the same.
- HTTP, sockets, JSON and the C++ and Python servers and thread pools around the auction.
- Panics in a Go handler, after which the slot would not be released: the callback is taken to return.
- In C++ a 32-bit overflow is undefined; the model wraps around. The language says nothing of such runs, and results that need no overflow do not depend on it.
- The search of `sort.Slice` and `std::stable_sort` for their results: only their contracts matter, which a selection sort and an insertion sort meet here.
- With no requests to send, the progress bar divides by their number and fails; in the model it stops.
- The clock of the load harness, its sleeping and printing, the registration and submission of scores, and the sorting and hashing of the answers, which depend on their multiset only.
- Generator.Generate: leaves a domain free beyond its 36 characters and its ending; what `RandomProhibitString` makes it of is not carried into the tables.
- The assignment operators of the `VariantImpl`, `VariantMap` and `VariantList` templates, which `Variant` never calls, and the equivalence of string types in `get`.
- Exceptions thrown by allocation inside `Variant`.
- Variants.Memory.CopyContent: takes a content pointer that is not null, because no Variant's ever is; the container templates would copy a null one as null.
- The generated names and ad texts are only known by their lengths.
