# car-comparer catalog model

A Dafny model of the scraping and reconciliation core of car-comparer.

car-comparer is a Django project. It fills a vehicle catalog from several sources:
- FuelEconomy.gov menus;
- the NHTSA vPIC API;
- Google configuration carousels;
- Wikipedia infoboxes.

It also cleans the catalog up afterwards.

The model covers the following commands and files:
- the management commands `scrape`, `scrape_fueleconomy`, `scrape_nhtsa`, `scrape_google`, `scrape_wikipedia` and `remove_duplicates`;
- the shared base command `BaseAPICommand`;
- the entity records of `models.py`;
- the stand-alone script `wikipedia_scrape.py`.

The catalog (`Catalog.Db`) holds one table per entity:
- manufacturers, vehicle types, models, model years, variations and prices;
- each table is a sequence of rows in ascending id order;
- one id counter is shared by all tables.

The ORM primitives are functions on that value:
- `get_or_create` returns `(row, created)`, or raises `MultipleObjectsReturned` when the key is already ambiguous;
- `get` raises `DoesNotExist` or `MultipleObjectsReturned`;
- `create` on a one-to-one price raises `IntegrityError` when the variation already has a price;
- `filter(...).update(...)` and cascading deletes are modelled as well.

The class `Database.Store` holds the same tables as mutable fields. The command methods run on it: they are imperative, with loops over menu items, results and manufacturers. Each method is proved equal to a pure function of the old state. The properties are proved as lemmas about those functions: idempotence on rerun, what a pass adds, what it never touches, error cases and counters.

HTTP responses are parameters:
- a fetch function maps a URL to a status plus the items the XML, JSON or HTML parser would have produced;
- `None` stands for a request or parser that raised.

Date parsing is a parameter, and so is the current year.

## Model

| member | source | states |
|---|---|---|
| Query.Hits | carcomparer/cars/management/commands/scrape.py:61-65 | the positions of the rows with a given key, ascending, and exactly those |
| Query.GetOrCreate | carcomparer/cars/management/commands/scrape.py:61-75 | Django `get_or_create`: raises MultipleObjectsReturned exactly when two or more rows have the key; otherwise afterwards exactly one row has it; `created` exactly when none had it, in which case the new row is appended, else the table is unchanged |
| Query.GetOrCreateIdempotent | carcomparer/cars/management/commands/scrape.py:61-75 | a second `get_or_create` with the same key returns the same row, not created, and changes nothing |
| Query.GetOrCreateKeepsSingle | carcomparer/cars/management/commands/scrape.py:61-75 | a `get_or_create` on one key keeps a different key that had exactly one row at exactly one row |
| Query.Get | carcomparer/cars/management/commands/scrape.py:55 | Django `get`: succeeds exactly when one row has the key, DoesNotExist exactly when none does |
| Query.FirstWhere | carcomparer/cars/management/commands/scrape_fueleconomy.py:71 | `.first()`: the first position satisfying the filter, or none when no row does |
| Query.FirstIsLowest | carcomparer/cars/management/commands/scrape_fueleconomy.py:71 | on a table in id order the first match has the lowest id among all matches |
| Query.Filter | carcomparer/cars/management/commands/remove_duplicates.py:30 | keeps exactly the rows satisfying the condition |
| Catalog.GetOrCreateManufacturer | carcomparer/cars/management/commands/scrape_fueleconomy.py:26 | `get_or_create` on the manufacturer name; a new row gets the next id and an empty country |
| Catalog.GetOrCreateVehicleType | carcomparer/cars/management/commands/scrape_nhtsa.py:92 | `get_or_create` on the vehicle-type name |
| Catalog.GetOrCreateModel | carcomparer/cars/management/commands/scrape.py:61-65 | `get_or_create` keyed (manufacturer, name, year); a new model has no vehicle type |
| Catalog.GetOrCreateVariation | carcomparer/cars/management/commands/scrape.py:72-75 | `get_or_create` keyed (parent, name); a new variation has fuel type G |
| Catalog.CreatePrice | carcomparer/cars/models.py:54-59 | the one-to-one price: IntegrityError, with nothing changed, exactly when the variation already has a price; otherwise exactly one price row appended |
| Catalog.Names | carcomparer/cars/management/commands/scrape_nhtsa.py:11-19 | the manufacturer names, in table order |
| Catalog.GetManufacturer | carcomparer/cars/management/commands/scrape_wikipedia.py:56 | found exactly when one manufacturer has the name, and then it is that row |
| Catalog.SetVehicleType | carcomparer/cars/management/commands/scrape_nhtsa.py:107-109 | `filter(key).update(vehicle_type)`: every model with the key gets the type, every other row is unchanged, the count is the number of matching rows |
| Catalog.SaveManufacturer | carcomparer/cars/management/commands/scrape_wikipedia.py:71 | `save()`: the row with that id is replaced, every other table and row is unchanged |
| Catalog.DeleteModels | carcomparer/cars/models.py:40-42 | deleting models removes exactly them, their model years, the variations left without a parent and the prices of those variations; nothing else |
| Catalog.DeleteManufacturer | carcomparer/cars/models.py:17-19 | deleting a manufacturer removes exactly it and its models; with them go exactly the model years of those models, the variations left without a parent and the prices of those variations; every other row, the vehicle types and the id counter stay |
| Database.Store.constructor | carcomparer/cars/models.py:5-63 | a new store is the empty, well-formed catalog |
| Database.Store.Load | carcomparer/cars/models.py:5-63 | the store then holds the given catalog |
| Database.Store.GetOrCreateManufacturer | carcomparer/cars/management/commands/scrape_fueleconomy.py:26 | new state and result are those of `Catalog.GetOrCreateManufacturer` |
| Database.Store.GetOrCreateVehicleType | carcomparer/cars/management/commands/scrape_nhtsa.py:92 | new state and result are those of `Catalog.GetOrCreateVehicleType` |
| Database.Store.GetOrCreateModel | carcomparer/cars/management/commands/scrape.py:61-65 | new state and result are those of `Catalog.GetOrCreateModel` |
| Database.Store.GetOrCreateVariation | carcomparer/cars/management/commands/scrape.py:72-75 | new state and result are those of `Catalog.GetOrCreateVariation` |
| Database.Store.CreatePrice | carcomparer/cars/management/commands/scrape_google.py:96 | new state and result are those of `Catalog.CreatePrice` |
| Database.Store.GetManufacturer | carcomparer/cars/management/commands/scrape.py:55 | returns `Catalog.GetManufacturer` and changes nothing |
| Database.Store.SetVehicleType | carcomparer/cars/management/commands/scrape_nhtsa.py:107-109 | new state and count are those of `Catalog.SetVehicleType` |
| Database.Store.SaveManufacturer | carcomparer/cars/management/commands/scrape_wikipedia.py:71 | new state is that of `Catalog.SaveManufacturer` |
| Database.Store.DeleteModels | carcomparer/cars/management/commands/remove_duplicates.py:30 | new state is that of `Catalog.DeleteModels` |
| Database.Store.DeleteManufacturer | carcomparer/cars/models.py:17-19 | new state is that of `Catalog.DeleteManufacturer` |
| CarModels.FuelFromCode | carcomparer/cars/models.py:34-44 | a fuel code is valid exactly when it is one of G, D, E, H, and it reads back to that code |
| CarModels.FuelCodeRoundTrip | carcomparer/cars/models.py:34-39 | every fuel type's code reads back to that fuel type |
| CarModels.ModelFullNameReadBack | carcomparer/cars/models.py:24-26 | a model's full name is "<year> <manufacturer> <name>": split at spaces, it gives back the year and, for a manufacturer name without a space, the manufacturer and model names |
| CarModels.VariationFullNameInjective | carcomparer/cars/models.py:46-48 | two variations of one model have the same full name exactly when they have the same name |
| CarModels.PriceLabelCurrency | carcomparer/cars/models.py:62-63 | a price renders as "<variation full name> - ... <currency>" |
| Text.Strip | carcomparer/cars/management/commands/scrape.py:86 | Python `strip()`: the result is the slice between the leading and the trailing white space, with no white space at either end |
| Text.JoinSplit | carcomparer/cars/management/commands/scrape_fueleconomy.py:55 | joining `split(" ")` with single spaces gives the text back |
| Text.SplitJoin | carcomparer/cars/management/commands/scrape_fueleconomy.py:59 | splitting a join of space-free parts gives the parts back |
| Text.Split | carcomparer/cars/management/commands/scrape_fueleconomy.py:55 | Python `split(" ")`: at least one part, and no part contains the separator |
| Text.SplitOnce | carcomparer/cars/management/commands/scrape.py:90 | `split(" ", 1)`: one part exactly when there is no space; two parts spell the text around its first space |
| Text.Find | carcomparer/cars/management/commands/scrape_google.py:76 | the first position where the pattern occurs, or none when it does not occur |
| Text.JoinSplitOn | carcomparer/cars/management/commands/scrape_google.py:76 | joining `split(sep)` with sep gives the text back |
| Text.SplitOnFirstField | carcomparer/cars/management/commands/scrape_google.py:76 | the first field of `split(sep)` does not contain the separator |
| Text.ReplaceBack | carcomparer/cars/management/commands/scrape_google.py:30 | replacing a character by a new one and back restores the text |
| Text.Replace | carcomparer/cars/management/commands/scrape_google.py:30 | Python `replace`: replacing a character by one character keeps the length; replacing it by text without it leaves none of it |
| Text.ParseInt | carcomparer/cars/management/commands/scrape_google.py:79 | Python `int()` on decimal text; a parsed value needs at least one digit |
| Text.IntToStringRoundTrip | carcomparer/cars/management/commands/scrape_google.py:79 | the decimal rendering of every integer parses back to it |
| Web.Years | carcomparer/cars/management/base_scrape.py:45 | `range(first, last + 1)`: last - first + 1 years (none when last < first), ascending from first |
| BaseScrape.ParseType | carcomparer/cars/management/base_scrape.py:22-26 | a scrape type is accepted exactly when it is manufacturers, models, variations or vehicle_types, and it reads back to its name |
| BaseScrape.TypeNameRoundTrip | carcomparer/cars/management/base_scrape.py:22-26 | every operation's name is accepted as that operation |
| BaseScrape.ParseOptions | carcomparer/cars/management/base_scrape.py:8-33 | options parse exactly when a start year and a valid type are given; the end year defaults to the current year and the worker count to 10 |
| BaseScrape.YearsSnoc | carcomparer/cars/management/base_scrape.py:45 | the inclusive range to last + 1 is the range to last followed by last + 1 |
| BaseScrape.YearsInclusive | carcomparer/cars/management/base_scrape.py:45 | a year is in the loop exactly when start <= year <= end |
| BaseScrape.ApiCommand.constructor | carcomparer/cars/management/base_scrape.py:5-6 | a command starts with 10 workers, no calls and no output |
| BaseScrape.ApiCommand.Handle | carcomparer/cars/management/base_scrape.py:36-65 | sets the worker count; an operation without a scrape function writes one error line and calls nothing; an overridden operation gets its progress line and then its call for each year from start to end inclusive, ascending, up to and including the first year whose call raises, and `handle` ends with that exception (no call when end < start); a base stub raises NotImplementedError on the first year after one progress line |
| BaseScrape.ApiCommand.RunYears | carcomparer/cars/management/base_scrape.py:45-47 | the year loop: the calls and the new progress lines are those of the years from start to end inclusive, in order, up to and including the first year whose call raises, appended after what was there; it ends with that year's exception, or normally when no call raises; the worker count is unchanged |
| BaseScrape.FirstRaise | carcomparer/cars/management/base_scrape.py:45-47 | the position at which the `for` loop leaves by an exception: every earlier year's call returns and the call there raises, or it is the number of years when no call raises |
| BaseScrape.CompletesIffNoneRaises | carcomparer/cars/management/base_scrape.py:45-47 | the loop completes exactly when no year's call raises, and then every year has been called |
| BaseScrape.RaiseEndsLoop | carcomparer/cars/management/base_scrape.py:45-47 | when a call raises, its year is the last one called: the years called are a prefix of the range, all before it returned, and no later year is called |
| BaseScrape.ProgressLineYear | carcomparer/cars/management/base_scrape.py:46 | a progress line reads "Scraping <type> for year: " followed by the year in decimal, and that tail parses back to the year |
| Scrape.FirstPrefix | carcomparer/cars/management/commands/scrape.py:83-84 | the first exception in list order that the name starts with, none when no exception matches |
| Scrape.ParseModelName | carcomparer/cars/management/commands/scrape.py:82-93 | the model name is a prefix of the full name |
| Scrape.ExceptionWins | carcomparer/cars/management/commands/scrape.py:83-87 | when the first matching exception is at position i, the model is that exception and the variation is the stripped rest, or "Standard" when that is empty; the variation is never empty |
| Scrape.FallbackSplit | carcomparer/cars/management/commands/scrape.py:89-93 | without an exception the model has no space; with a space, model + " " + variation is the full name; without one, the model is the full name and the variation "Standard" |
| Scrape.ModelSportExample | carcomparer/cars/management/commands/scrape.py:38-44 | "Model Sport" is read as model "Model S", variation "port" |
| Scrape.TrailingSpaceExample | carcomparer/cars/management/commands/scrape.py:90-92 | "Civic " is read as model "Civic" with an empty variation |
| Scrape.AddCar | carcomparer/cars/management/commands/scrape.py:57-75 | one menu value adds at most one model and one variation, touches no other table, and on success leaves the value filed (model and variation present once each) |
| Scrape.AddCarKeepsFiled | carcomparer/cars/management/commands/scrape.py:61-75 | filing one value keeps every earlier value filed |
| Scrape.FiledAddCarNoChange | carcomparer/cars/management/commands/scrape.py:61-75 | a value already filed changes nothing |
| Scrape.AddCars | carcomparer/cars/management/commands/scrape.py:56-80 | the item loop adds at most one model per item and touches only models and variations |
| Scrape.AddCarsFilesAll | carcomparer/cars/management/commands/scrape.py:56-80 | after a clean loop every menu value is filed |
| Scrape.AllFiledNoChange | carcomparer/cars/management/commands/scrape.py:56-80 | a loop over values that are all filed changes nothing |
| Scrape.AddCarsRerun | carcomparer/cars/management/commands/scrape.py:56-80 | rerunning the loop with the same data adds no rows |
| Scrape.CarsForMake | carcomparer/cars/management/commands/scrape.py:37-80 | `scrape_cars`: a non-200 response changes nothing; a missing or ambiguous manufacturer raises the `get` error with nothing changed |
| Scrape.CarsForMakeRerun | carcomparer/cars/management/commands/scrape.py:37-80 | rerunning `scrape_cars` for the same make and year adds no rows |
| Scrape.MakesForYear | carcomparer/cars/management/commands/scrape.py:15-35 | `scrape_manufacturers` returns the menu values in response order, or [] with nothing changed on a non-200 response; it only adds manufacturers |
| Scrape.RunYear | carcomparer/cars/management/commands/scrape.py:98-100 | a year whose manufacturer menu fails changes nothing |
| Scrape.RunYears | carcomparer/cars/management/commands/scrape.py:97-100 | the year loop keeps the catalog well formed |
| Scrape.FileCar | carcomparer/cars/management/commands/scrape.py:57-75 | new state and error are those of `AddCar` |
| Scrape.FileCars | carcomparer/cars/management/commands/scrape.py:56-80 | the loop's new state and error are those of `AddCars` |
| Scrape.ScrapeCars | carcomparer/cars/management/commands/scrape.py:37-80 | new state and outcome are those of `CarsForMake` |
| Scrape.ScrapeManufacturers | carcomparer/cars/management/commands/scrape.py:15-35 | new state, names and outcome are those of `MakesForYear` |
| Scrape.ScrapeYear | carcomparer/cars/management/commands/scrape.py:98-100 | new state and error are those of `RunYear` |
| Scrape.Handle | carcomparer/cars/management/commands/scrape.py:95-100 | runs the years from 2023 to the current year inclusive, ascending, with the effect of `RunYears` |
| Ingest.AddManufacturers | carcomparer/cars/management/commands/scrape_fueleconomy.py:23-30 | one manufacturer `get_or_create` per menu value, one `created` flag per value; adds at most one row per value and touches no other table |
| Ingest.OtherNameUntouched | carcomparer/cars/management/commands/scrape_fueleconomy.py:26 | a `get_or_create` on one name leaves the rows of every other name as they were |
| Ingest.AddManufacturersAllSingle | carcomparer/cars/management/commands/scrape_fueleconomy.py:23-30 | after a clean pass every menu value names exactly one manufacturer |
| Ingest.KeepsSingleThroughPass | carcomparer/cars/management/commands/scrape_fueleconomy.py:23-30 | a name with exactly one row keeps exactly one row through the pass |
| Ingest.CreatedOnFirstSighting | carcomparer/cars/management/commands/scrape_fueleconomy.py:26-30 | `created` is true exactly on the first sighting of a name that was not yet in the table |
| Ingest.AllPresentNoChange | carcomparer/cars/management/commands/scrape_fueleconomy.py:23-30 | when every name is already present once, nothing changes and no flag is set |
| Ingest.AddManufacturersRerun | carcomparer/cars/management/commands/scrape_fueleconomy.py:23-30 | a rerun changes nothing and reports every name as existing |
| Ingest.GetOrCreateManufacturers | carcomparer/cars/management/commands/scrape_fueleconomy.py:23-30 | the loop's new state, flags and error are those of `AddManufacturers` |
| FuelEconomy.ResolveFrom | carcomparer/cars/management/commands/scrape_fueleconomy.py:57-79 | the longest-prefix scan: the chosen prefix length is the largest at which some model qualifies, every longer prefix has no qualifying model, the model is the qualifying one with the lowest id, and the variation is "Base" for the whole label or the remaining words joined by spaces; no match means no prefix qualifies |
| FuelEconomy.NoFirstNoneQualifies | carcomparer/cars/management/commands/scrape_fueleconomy.py:60-66 | when `.first()` finds nothing, no model qualifies for that candidate |
| FuelEconomy.ResolvedLabelSplits | carcomparer/cars/management/commands/scrape_fueleconomy.py:55-70 | prefix + " " + variation reconstructs the label, or the prefix is the whole label and the variation is "Base" |
| FuelEconomy.ResolveLabel | carcomparer/cars/management/commands/scrape_fueleconomy.py:57-71 | the decreasing-index loop with `break` returns exactly `Resolve` and changes nothing |
| FuelEconomy.ResolveLoop | carcomparer/cars/management/commands/scrape_fueleconomy.py:57-71 | the loop from the longest prefix down, leaving at the first length at which a model qualifies, returns exactly `ResolveFrom` over all the label's parts |
| FuelEconomy.AddLabel | carcomparer/cars/management/commands/scrape_fueleconomy.py:57-79 | an unmatched label changes nothing; a matched one does one variation `get_or_create` on the resolved model and leaves exactly one variation with that key; models and manufacturers are never touched |
| FuelEconomy.FileLabel | carcomparer/cars/management/commands/scrape_fueleconomy.py:57-79 | new state and error are those of `AddLabel` |
| FuelEconomy.AddLabelIdempotent | carcomparer/cars/management/commands/scrape_fueleconomy.py:73-75 | repeating a label adds no row |
| FuelEconomy.AddLabels | carcomparer/cars/management/commands/scrape_fueleconomy.py:52-79 | the item loop adds at most one variation per item and touches only variations |
| FuelEconomy.VariationsForMake | carcomparer/cars/management/commands/scrape_fueleconomy.py:46-88 | a non-200 response changes nothing; models and manufacturers are unchanged; at most one variation per menu item is added |
| FuelEconomy.ScrapeVariationsManufacturer | carcomparer/cars/management/commands/scrape_fueleconomy.py:46-88 | new state and outcome are those of `VariationsForMake` |
| FuelEconomy.VariationsForMakes | carcomparer/cars/management/commands/scrape_fueleconomy.py:32-44 | the pass over all manufacturers never changes models or manufacturers |
| FuelEconomy.VariationsForMakesFirst | carcomparer/cars/management/commands/scrape_fueleconomy.py:36-44 | the pass is the first manufacturer's task followed by the pass over the rest |
| FuelEconomy.ScrapeVariations | carcomparer/cars/management/commands/scrape_fueleconomy.py:32-44 | new state and error are those of `VariationsForMakes` over the manufacturer names in table order |
| FuelEconomy.ManufacturersForYear | carcomparer/cars/management/commands/scrape_fueleconomy.py:13-30 | a non-200 response changes nothing; otherwise one flag per menu item; only manufacturers are added |
| FuelEconomy.ScrapeManufacturers | carcomparer/cars/management/commands/scrape_fueleconomy.py:13-30 | new state, flags and outcome are those of `ManufacturersForYear` |
| RemoveDuplicates.DuplicateKeys | carcomparer/cars/management/commands/remove_duplicates.py:13-17 | the (manufacturer, name, year) keys with two or more models, each once |
| RemoveDuplicates.LaterIdsAreNotFirst | carcomparer/cars/management/commands/remove_duplicates.py:21-27 | the ids after the first in a group are exactly the rows of that key that are not its first row |
| RemoveDuplicates.DropGroupsMembers | carcomparer/cars/management/commands/remove_duplicates.py:19-30 | after the group loop a row stays exactly when its key is not a group or it is its group's first row |
| RemoveDuplicates.DropGroups | carcomparer/cars/management/commands/remove_duplicates.py:19-30 | the group loop keeps the catalog well formed, leaves manufacturers, vehicle types and the id counter alone, and adds no model |
| RemoveDuplicates.RemoveDuplicates | carcomparer/cars/management/commands/remove_duplicates.py:11-30 | a model survives exactly when it is the first row of its key; afterwards no two models share a key; manufacturers and vehicle types are untouched |
| RemoveDuplicates.UniqueRowIsFirst | carcomparer/cars/management/commands/remove_duplicates.py:13-17 | a row whose key is unique is the first of its key, so it is never deleted |
| RemoveDuplicates.GroupsKeepOne | carcomparer/cars/management/commands/remove_duplicates.py:21-27 | every key present before is present afterwards on exactly one row |
| RemoveDuplicates.DeletedCount | carcomparer/cars/management/commands/remove_duplicates.py:19-30 | the number deleted is the number of rows minus the number of distinct keys, that is the sum over groups of (size - 1) |
| RemoveDuplicates.RemoveDuplicatesRerun | carcomparer/cars/management/commands/remove_duplicates.py:11-30 | a second pass deletes nothing |
| RemoveDuplicates.Handle | carcomparer/cars/management/commands/remove_duplicates.py:11-30 | the loop over the groups leaves the store equal to `RemoveDuplicates` of the old state |
| Nhtsa.AddModels | carcomparer/cars/management/commands/scrape_nhtsa.py:38-56 | one model `get_or_create` per result, one flag per result; only models are added |
| Nhtsa.AddModelsAllSingle | carcomparer/cars/management/commands/scrape_nhtsa.py:38-44 | after a clean loop every result names exactly one model of that manufacturer and year |
| Nhtsa.AllPresentNoChange | carcomparer/cars/management/commands/scrape_nhtsa.py:38-56 | when every result is already present once, nothing changes and every model is reported existing |
| Nhtsa.ModelsForManufacturer | carcomparer/cars/management/commands/scrape_nhtsa.py:24-56 | a non-200 response or a Count of 0 changes nothing; the manufacturer is get-or-created only when Count > 0; models and manufacturers only grow |
| Nhtsa.ModelsForManufacturerRerun | carcomparer/cars/management/commands/scrape_nhtsa.py:36-56 | a rerun adds no rows and reports every model as existing |
| Nhtsa.ModelsForAll | carcomparer/cars/management/commands/scrape_nhtsa.py:10-22 | the pass over all manufacturers only adds manufacturers and models |
| Nhtsa.ModelsForAllSnoc | carcomparer/cars/management/commands/scrape_nhtsa.py:14-22 | the pass over k + 1 names is the pass over k followed by one task |
| Nhtsa.AddVehicleTypes | carcomparer/cars/management/commands/scrape_nhtsa.py:90-93 | one vehicle-type `get_or_create` per result; only vehicle types are added |
| Nhtsa.AddVehicleTypesAllSingle | carcomparer/cars/management/commands/scrape_nhtsa.py:90-93 | after a clean loop every result names exactly one vehicle type |
| Nhtsa.FetchVehicleTypes | carcomparer/cars/management/commands/scrape_nhtsa.py:84-94 | returns the type names in result order; [] with nothing changed on a non-200 response |
| Nhtsa.FetchedTypesStored | carcomparer/cars/management/commands/scrape_nhtsa.py:84-94 | every returned type name is stored exactly once |
| Nhtsa.SetAll | carcomparer/cars/management/commands/scrape_nhtsa.py:104-111 | the update loop changes only vehicle types of models, never adds or removes one, and counts at most one per result |
| Nhtsa.SetAllRows | carcomparer/cars/management/commands/scrape_nhtsa.py:104-109 | a model gets the type exactly when its (manufacturer, name, year) is among the results; every other model is unchanged |
| Nhtsa.SetAllCount | carcomparer/cars/management/commands/scrape_nhtsa.py:103-111 | the counter is the number of results that matched at least one model |
| Nhtsa.BackFill | carcomparer/cars/management/commands/scrape_nhtsa.py:96-126 | a non-200 response changes nothing; models are never created; the count is at most the number of results |
| Nhtsa.BackFillEffect | carcomparer/cars/management/commands/scrape_nhtsa.py:99-111 | the type is get-or-created under its name; matching models get it; the counter is the number of results that matched |
| Nhtsa.BackFillEach | carcomparer/cars/management/commands/scrape_nhtsa.py:81-82 | the loop over the fetched types creates no model |
| Nhtsa.BackFillAll | carcomparer/cars/management/commands/scrape_nhtsa.py:79-82 | `update_all_vehicle_types` creates no model and only adds vehicle types |
| Nhtsa.VehicleTypesForAll | carcomparer/cars/management/commands/scrape_nhtsa.py:58-77 | the pass over all manufacturers creates no model and reports at most one failure per manufacturer |
| Nhtsa.VehicleTypesIsolation | carcomparer/cars/management/commands/scrape_nhtsa.py:68-77 | the first manufacturer's failure is reported and the others are still processed as if it had not happened |
| Nhtsa.GetOrCreateModels | carcomparer/cars/management/commands/scrape_nhtsa.py:38-56 | the loop's new state, flags and error are those of `AddModels` |
| Nhtsa.ScrapeModelsForManufacturer | carcomparer/cars/management/commands/scrape_nhtsa.py:24-56 | new state, flags and outcome are those of `ModelsForManufacturer` |
| Nhtsa.ScrapeModels | carcomparer/cars/management/commands/scrape_nhtsa.py:10-22 | new state and error are those of `ModelsForAll` over the names in table order |
| Nhtsa.GetOrCreateVehicleTypes | carcomparer/cars/management/commands/scrape_nhtsa.py:90-93 | the loop's new state and error are those of `AddVehicleTypes`; the appended list is the results |
| Nhtsa.FetchVehicleTypesForManufacturer | carcomparer/cars/management/commands/scrape_nhtsa.py:84-94 | new state, names and error are those of `FetchVehicleTypes` |
| Nhtsa.UpdateVehicleTypes | carcomparer/cars/management/commands/scrape_nhtsa.py:96-126 | the loop's new state, counter and error are those of `BackFill` |
| Nhtsa.UpdateAllVehicleTypes | carcomparer/cars/management/commands/scrape_nhtsa.py:79-82 | new state and error are those of `BackFillAll` |
| Nhtsa.RunTask | carcomparer/cars/management/commands/scrape_nhtsa.py:68-77 | one manufacturer's task with its error caught and reported |
| Nhtsa.ScrapeVehicleTypes | carcomparer/cars/management/commands/scrape_nhtsa.py:58-77 | new state and failure list are those of `VehicleTypesForAll` |
| Wikipedia.FindClose | carcomparer/cars/management/commands/scrape_wikipedia.py:107 | the lazy `.*?` match: the first closing character before any newline, or none when the span never closes on its line |
| Wikipedia.RemoveSpansNoSpan | carcomparer/cars/management/commands/scrape_wikipedia.py:107 | after removal no `[` or `(` opens a span that closes on its line |
| Wikipedia.CleanTextNoSpan | carcomparer/cars/management/commands/scrape_wikipedia.py:103-107 | `clean_text` leaves no closable span and no white space at either end |
| Wikipedia.CleanTextPlain | carcomparer/cars/management/commands/scrape_wikipedia.py:107 | text without `[` and `(` is only stripped |
| Wikipedia.PageUrl | carcomparer/cars/management/commands/scrape_wikipedia.py:96-101 | none exactly when there are no results; otherwise the article prefix followed by a title with no space |
| Wikipedia.PageUrlTitle | carcomparer/cars/management/commands/scrape_wikipedia.py:98-100 | for a title without `_`, putting spaces back for `_` after the prefix gives the first title |
| Wikipedia.GetDescription | carcomparer/cars/management/commands/scrape_wikipedia.py:109-115 | the cleaned text of the first bold paragraph, or "Description not found." when there is none |
| Wikipedia.LatestIsLast | carcomparer/cars/management/commands/scrape_wikipedia.py:44-53 | the value kept for a field is that of the last row that carries it, none when no row does |
| Wikipedia.ReadRow | carcomparer/cars/management/commands/scrape_wikipedia.py:45-53 | a row with header and data gives the founded text before the first `;` or, failing that, the headquarters text after the last `,`, both stripped |
| Wikipedia.ScanInfobox | carcomparer/cars/management/commands/scrape_wikipedia.py:42-53 | the row loop's year and country are the last values the rows carry |
| Wikipedia.ArticleFacts | carcomparer/cars/management/commands/scrape_wikipedia.py:37-57 | an article's facts carry a date that was found in the infobox |
| Wikipedia.Merged | carcomparer/cars/management/commands/scrape_wikipedia.py:59-68 | the description is set; the country is the cleaned headquarters value or the old country when none was found; the founding date is the parsed date or the old one when parsing gave nothing |
| Wikipedia.MergedTwice | carcomparer/cars/management/commands/scrape_wikipedia.py:59-71 | merging the same facts twice is merging them once |
| Wikipedia.MergedCountryClean | carcomparer/cars/management/commands/scrape_wikipedia.py:60-64 | the country is either the old one or free of closable spans |
| Wikipedia.ManufacturerInfo | carcomparer/cars/management/commands/scrape_wikipedia.py:28-81 | a failed search, no infobox, a missing or ambiguous manufacturer or any other error leaves the catalog unchanged; otherwise only the rows with that name are merged |
| Wikipedia.ManufacturerInfoRerun | carcomparer/cars/management/commands/scrape_wikipedia.py:28-81 | scraping the same name twice gives the same catalog as once |
| Wikipedia.InfoForAll | carcomparer/cars/management/commands/scrape_wikipedia.py:16-26 | the pass only changes manufacturer rows; it reports the first name whose search raised, none when none did |
| Wikipedia.InfoForAllRows | carcomparer/cars/management/commands/scrape_wikipedia.py:16-26 | a row ends up merged with its facts exactly when its name is in the list, exactly one row has that name and the article gives usable facts; every other row is unchanged, whatever fails for other names |
| Wikipedia.InfoForAllRerun | carcomparer/cars/management/commands/scrape_wikipedia.py:16-26 | a second pass changes nothing more |
| Wikipedia.ScrapeManufacturerInfo | carcomparer/cars/management/commands/scrape_wikipedia.py:28-81 | new state and outcome are those of `ManufacturerInfo` |
| Wikipedia.ScrapeManufacturers | carcomparer/cars/management/commands/scrape_wikipedia.py:16-26 | new state and failure are those of `InfoForAll` over the names in table order |
| WikipediaScript.RawDescription | wikipedia_scrape.py:27-32 | the raw text of the first bold paragraph, or "Description not found." |
| WikipediaScript.DescriptionsAgree | wikipedia_scrape.py:27-32 | when the bold paragraph has no `[` or `(`, the script's stripped description equals the command's cleaned one |
| WikipediaScript.EntryFor | wikipedia_scrape.py:38-74 | no result gives the "Page not found." entry with no year and no country; an error entry exactly when the page, infobox, founded row or date parse fails; otherwise the parsed founding date, the headquarters country and the stripped raw description |
| WikipediaScript.CollectPointwise | wikipedia_scrape.py:35-76 | the keys are exactly the input names, and each name's entry is the one for that name (a repeated name gives the same entry) |
| WikipediaScript.ManufacturerEntry | wikipedia_scrape.py:38-74 | the loop body computes `EntryFor` |
| WikipediaScript.GetCarManufacturerInfo | wikipedia_scrape.py:35-76 | the loop's dictionary is `Collect` of the names |
| WikipediaScript.CollectAbortKeeps | wikipedia_scrape.py:39 | once a search raises, the whole call raises |
| Google.SearchQuery | carcomparer/cars/management/commands/scrape_google.py:30 | the car name with each space replaced by `+`, followed by "+configurations"; no space remains |
| Google.SearchQueryReadBack | carcomparer/cars/management/commands/scrape_google.py:30 | for a name without `+`, the query prefix reads back to the car name |
| Google.AbsoluteUrl | carcomparer/cars/management/commands/scrape_google.py:50-51 | an href starting with `/` gets "https://www.google.com" prepended; any other is unchanged |
| Google.ParseItem | carcomparer/cars/management/commands/scrape_google.py:74-79 | an item parses exactly when it splits on "From $" into two parts whose second, with commas removed, is an integer; the name is the untrimmed first part and the text is name + "From $" + rest |
| Google.SplitAtMark | carcomparer/cars/management/commands/scrape_google.py:76 | "<name>From $<rest>" without `$` elsewhere splits into exactly name and rest |
| Google.ParseItemOf | carcomparer/cars/management/commands/scrape_google.py:74-79 | a rendered item "<name>From $<digits>" parses back to that name and price |
| Google.SeparatorDropped | carcomparer/cars/management/commands/scrape_google.py:79 | removing the commas drops a thousands separator between two comma-free digit groups and joins them |
| Google.ParseItemThousands | carcomparer/cars/management/commands/scrape_google.py:74-79 | an item "<name>From $<digits>,<digits>" parses to that name and the price of the digit groups joined (as "LX From $32,500" gives "LX " and 32500) |
| Google.AddItem | carcomparer/cars/management/commands/scrape_google.py:73-100 | a malformed item raises with nothing changed; otherwise one variation `get_or_create` under the model year and one price of the item's amount in USD; it raises IntegrityError when that variation already has a price |
| Google.PricedRaises | carcomparer/cars/management/commands/scrape_google.py:96 | an item whose variation already has a price raises IntegrityError and changes nothing |
| Google.AddItemRepeat | carcomparer/cars/management/commands/scrape_google.py:82-96 | the same item a second time raises IntegrityError |
| Google.AddItemKeepsPriced | carcomparer/cars/management/commands/scrape_google.py:82-96 | an item keeps every existing price attached to its variation |
| Google.AddItems | carcomparer/cars/management/commands/scrape_google.py:73-100 | the item loop only adds variations and prices; a clean loop adds one price per item |
| Google.AddItemsFirst | carcomparer/cars/management/commands/scrape_google.py:73-100 | the loop is the first item followed by the rest, stopping at the first error |
| Google.AddItemsPrices | carcomparer/cars/management/commands/scrape_google.py:79-96 | after a clean loop the k-th new price carries the k-th item's amount |
| Google.AddItemsAppend | carcomparer/cars/management/commands/scrape_google.py:73-100 | the loop over xs + ys is the loop over xs followed, if it completed, by the loop over ys |
| Google.MalformedKeepsEarlier | carcomparer/cars/management/commands/scrape_google.py:73-107 | a malformed item stops the loop and keeps what the items before it committed |
| Google.AddItemsKeepPriced | carcomparer/cars/management/commands/scrape_google.py:82-96 | the loop keeps every existing price attached to its variation |
| Google.AddItemsRerun | carcomparer/cars/management/commands/scrape_google.py:82-96 | rerunning the same items raises IntegrityError at the first one and changes nothing |
| Google.PricedStops | carcomparer/cars/management/commands/scrape_google.py:82-96 | an item whose variation is already priced stops the loop |
| Google.SameNameStops | carcomparer/cars/management/commands/scrape_google.py:82-96 | two items with the same variation name in one carousel stop the loop |
| Google.AddItemsParents | carcomparer/cars/management/commands/scrape_google.py:82-84 | every variation the loop adds belongs to this model year |
| Google.ConfigUrl | carcomparer/cars/management/commands/scrape_google.py:45-51 | none exactly when no link has an href and a text containing "configurations" in any case; otherwise the first such link, made absolute |
| Google.ItemsFor | carcomparer/cars/management/commands/scrape_google.py:30-70 | the search raised, no configurations link, the page raised, an error status or no carousel, each exactly under its condition; otherwise the page's items |
| Google.ScrapeVariation | carcomparer/cars/management/commands/scrape_google.py:26-107 | a failure before the items changes nothing; otherwise the item loop runs and stops at its first error |
| Google.Window | carcomparer/cars/management/commands/scrape_google.py:21 | `cars[100:150]`: at most 50 cars, the i-th being car 100 + i |
| Google.WindowPositions | carcomparer/cars/management/commands/scrape_google.py:21 | every car of the window sits at a position from 100 to 149 |
| Google.VariationsPass | carcomparer/cars/management/commands/scrape_google.py:19-24 | one outcome per car; only variations and prices are added |
| Google.VariationsPassSnoc | carcomparer/cars/management/commands/scrape_google.py:19-24 | the pass over k + 1 cars is the pass over k followed by one car |
| Google.ScrapeVariations | carcomparer/cars/management/commands/scrape_google.py:14-24 | one outcome per car of the window; only variations and prices are added |
| Google.PassParents | carcomparer/cars/management/commands/scrape_google.py:19-24 | every variation the pass adds belongs to one of the cars passed |
| Google.ScrapeVariationsWindow | carcomparer/cars/management/commands/scrape_google.py:14-24 | every new variation belongs to a model year at a position from 100 to 149 |
| Google.AddItemAt | carcomparer/cars/management/commands/scrape_google.py:74-100 | new state and stop are those of `AddItem` |
| Google.StoreItems | carcomparer/cars/management/commands/scrape_google.py:73-100 | the loop's new state and stop are those of `AddItems` |
| Google.ScrapeVariationGoogle | carcomparer/cars/management/commands/scrape_google.py:26-107 | new state and outcome are those of `ScrapeVariation` |
| Google.ScrapeCar | carcomparer/cars/management/commands/scrape_google.py:20 | one car's task with its outcome recorded |
| Google.ScrapeVariationsOnStore | carcomparer/cars/management/commands/scrape_google.py:14-24 | new state and outcomes are those of `ScrapeVariations` |

## Left out

- Concurrency. `ThreadPoolExecutor` runs the per-manufacturer and per-car tasks in parallel. Here they run one after the other, in table order.
- `future.result()` in `scrape_models` and `scrape_variations` (FuelEconomy) re-raises a task's error only after every task was submitted, and the `with` block waits for all of them. The model runs every task and reports the first error in list order (`Nhtsa.ModelsForAll`, `FuelEconomy.VariationsForMakes`). That error is what makes the command's scrape function raise in `BaseAPICommand.handle`. The Google pass wraps each car in a catch-all, so it never re-raises, and `Google.VariationsPass` never stops. `scrape_vehicle_types` catches each task's error and goes on.
- HTTP, JSON, XML and HTML parsing (requests, ElementTree, BeautifulSoup). These are foreign libraries. Each response is a parameter: a status plus the items the parser would produce.
- A header cell whose text is empty counts as present here. BeautifulSoup's `row.find("th")` is truthy for any tag.
- `extract_and_parse_date` and dateutil's parser are foreign date parsing. They are a `parseDate` parameter with three answers: parsed, unparsable, or no date found. Its no-match branch returns the truthy string "None". The model treats that as a value that would then fail inside `save`, so the row is unchanged.
- Messages written to stdout and their styles are left out, except the dispatch lines of `BaseAPICommand.handle`. They carry no state.
- The debug write of the carousel to a file, at carcomparer/cars/management/commands/scrape_google.py:62-63. It is file I/O. That write can raise, for example for a car name containing `/` or one too long for a file name. The catch-all then ends the car's task with nothing stored. `Google.ItemsFor` never fails at that point.
- The `"429"` comparison at carcomparer/cars/management/commands/scrape_google.py:38 compares an int with a string. It is never true, so the model never returns early there.
- `delete_all.py`, `delete_all_cars.py` and `admin.py` are not part of this model. They are one-line ORM wipes and admin registration. Cascading deletes are modelled by `Catalog.DeleteManufacturer`.
- The example run at wikipedia_scrape.py:79-83. It is script I/O.
- `datetime.now()` is a `currentYear` parameter.
- Prices are whole numbers, where the source uses `DecimalField(max_digits=12, decimal_places=2)`. Every price comes from Python `int()`.
- Ids come from one counter shared by all tables, where each source table has its own sequence. The order of ids within a table is the same either way.
- Two querysets have no `order_by`, and no `Meta.ordering` for `Model` or `ModelYear` is in carcomparer/cars/models.py. They are `Model.objects.filter(...).values_list("id", flat=True)[1:]` (carcomparer/cars/management/commands/remove_duplicates.py:21-27) and `ModelYear.objects.all()[100:150]` (carcomparer/cars/management/commands/scrape_google.py:15-21). The database decides which row of a duplicate group survives and which 50 model years form the window. The model takes id order for both, so the lowest id survives (`RemoveDuplicates.FirstOfKey`) and the window is positions 100 to 149 in id order. Two facts do not name the survivor, though they are proved for this choice: exactly one row per key survives (`RemoveDuplicates.GroupsKeepOne`), and the number deleted is the number of rows minus the number of keys (`RemoveDuplicates.DeletedCount`).
- Text.ParseInt: accepts ASCII decimal digits with one sign and surrounding white space. It does not accept Python's underscore separators or other Unicode digits.
- Text.Lower: folds ASCII letters only. Python's `lower()` folds all of Unicode.
- `ModelYear` and its `full_name` are not defined in carcomparer/cars/models.py. The car's display name is a `fullName` parameter.
- The commands import `Manufacturer`, `Model`, `ModelYear`, `Variation`, `Price` and `VehicleType`. carcomparer/cars/models.py defines `CarManufacturer`, `CarModel`, `CarVariation` and `CarPrice`. The tables here carry only the fields the commands use.
- A variation's parent is either a model (FuelEconomy and `scrape`) or a model year (Google), because the commands use both.
- The `year` argument of `scrape_wikipedia.scrape_manufacturers` is ignored by the source, and so here.
- `kwargs.get("end_year", start_year)` never uses its fallback, because argparse always supplies the end year, defaulting to the current year. `BaseScrape.ParseOptions` follows argparse.
- `scrape_manufacturer_info` goes on after a failed search with `page_url` None. `requests.get(None)` then raises inside the try. In the model the search failure and that error both leave the catalog unchanged.
- In `wikipedia_scrape.py` the search request sits outside the try, so its exception ends the whole call. `WikipediaScript.Collect` returns None then.
- Google.AddItems: each parsed item creates its variation, then a price for it (carcomparer/cars/management/commands/scrape_google.py:82-96). The price is one-to-one with its variation, so this succeeds only for a variation without a price. A rerun, or two items with the same name, raise IntegrityError instead, and the catch-all ends the car. This is stated in `Google.AddItemsRerun` and `Google.SameNameStops`.
