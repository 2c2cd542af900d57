# Language store of java-web-app

This project models `LangRepository`, the in-memory language store of the
greeting web application. The store holds language records. Each record has an
integer id, a welcome message and a language code. The constructor seeds the
store with two records: (1, "Hello", "en") and then (2, "Cześć", "pl").
`findById` takes a boxed `Integer` that may be `null`. It returns the first
record in list order whose id equals the argument, or an empty `Optional`.

The model is in two modules:

- `Wrappers` (wrappers.dfy) defines `Option`. It stands for Java's `Optional`
  and for the nullable `Integer` argument (`None` is `null`).
- `Languages` (languages.dfy) defines the `Lang` record, the first-match
  search `FindFirst`, and the `filter`/`findFirst` chain written out as
  `Filter` and `Head`. It also holds the class `LangRepository`. Its
  constructor builds `languages` in place, starting from an empty list and
  appending the two seed records. `languages` is a constant field: nothing
  assigns it after construction. `FindById` is a function over it and
  changes nothing.

## Model

| member | source | states |
|---|---|---|
| Languages.FindFirst | src/main/java/io/github/mat3e/LangRepository.java:17 | the result is empty exactly when no record's id equals the argument; otherwise it is a record at some index k whose id matches, and no record before k matches (first match in list order) |
| Languages.Filter | src/main/java/io/github/mat3e/LangRepository.java:17 | the filter stage keeps only records of the list whose id matches and keeps every matching record; on a single record it keeps that record exactly when it matches; a non-empty result starts with the first matching record of the list |
| Languages.FilterDistributes | src/main/java/io/github/mat3e/LangRepository.java:17 | filtering preserves encounter order: filtering a concatenation equals concatenating the filtered parts, which with the single-record case fixes the order and multiplicity of the result |
| Languages.Head | src/main/java/io/github/mat3e/LangRepository.java:17 | the findFirst stage is empty exactly for an empty stream and otherwise yields its first element |
| Languages.FindFirstIsHeadOfFilter | src/main/java/io/github/mat3e/LangRepository.java:17 | the first-match search equals filter followed by findFirst, for every list and every argument |
| Languages.FindFirstUnique | src/main/java/io/github/mat3e/LangRepository.java:12-17 | when record ids are distinct, any record whose id matches is the one the lookup returns, so the first match is the unique match |
| Languages.SeedIdsDistinct | src/main/java/io/github/mat3e/LangRepository.java:12-13 | the two seeded records have distinct ids |
| Languages.SeedLookupFound | src/main/java/io/github/mat3e/LangRepository.java:12-17 | in the seed list (the repository's state after construction), looking up 1 yields (1, "Hello", "en") and looking up 2 yields (2, "Cześć", "pl") |
| Languages.SeedLookupMissing | src/main/java/io/github/mat3e/LangRepository.java:12-17 | in the seed list (the repository's state after construction), looking up any id other than 1 and 2, or null, yields empty rather than failing |
| Languages.LangRepository.constructor | src/main/java/io/github/mat3e/LangRepository.java:10-14 | after construction the store holds exactly the seed list, (1, "Hello", "en") followed by (2, "Cześć", "pl"), and their ids are distinct |
| Languages.LangRepository.FindById | src/main/java/io/github/mat3e/LangRepository.java:16-18 | a returned record is an element of the store whose id equals the argument, with no earlier element matching; the result is empty exactly when no element matches; a null argument yields empty; being a function of a constant field, it leaves the store unchanged |

## Left out

- `TodoRepository.findAll` (src/main/java/io/github/mat3e/todo/TodoRepository.java): it only opens a Hibernate session, runs a query and commits. It has no logic of its own to model.
- The greeting service `HelloService` and its fallback rules: `HelloService` is not part of this model. The test in src/test/java/io/github/mat3e/HelloServiceTest.java overrides `findById(Long)`, which does not match `findById(Integer)` in `LangRepository`. That test belongs to another revision and does not drive this model.
- The internals of `Lang` (getters, persistence annotations): `Lang` is not part of this model. Only the three fields passed to its constructor are modelled. A record whose id is `null` would make `getId().equals(id)` throw. The seeded records never have a null id, so `Lang.id` is a plain integer here.
- Record identity and aliasing: Java's `findById` returns a reference to the very `Lang` object held in `languages`, so the caller and the store share it. The model returns a value. `Lang` exposes no mutator here, so this changes no visible result.
- Java stream laziness: `filter`/`findFirst` is modelled as a plain first-match search over the list, together with the eager `Filter`/`Head` chain it is proved equal to.
- `Integer` width: ids are unbounded integers. The lookup only compares ids for equality, so 32-bit range does not affect any result.
