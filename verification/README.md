# maxutils MongoDB helpers, modelled in Dafny

This project models the connection and database helpers of `maxutils/mongodb.py`:

- `normalize_uri`, which writes a host and port as `host:port`, with MongoDB's default port 27017 when the port is empty or absent.
- `get_connection`, which reads a url or a host list with one of two regular expressions and dispatches on the cluster name:
  - With a truthy cluster name, `re.findall` extracts every `host[:port]` pair, whether the pairs are separated by commas, semicolons or white space. At least three are required. They are normalised and joined with commas for the replica-set client.
  - Otherwise `re.search` takes the first pair and hands its normalisation to the standalone client.
- `get_standalone_connection` and `get_cluster_connection` (with its `','.join`), as the one constructor call each makes.
- `get_database`, which decides whether to authenticate, against which database, and which database it returns.

The two patterns are modelled as deterministic functions over positions of the text (`HostPattern`):

- `\w+://` can only match the longest word run at the attempt position, and only when `://` follows it.
- When no host character follows the scheme, the optional scheme group is given up.
- The host group is the longest run of characters other than `:`, white space, `,` and `;`.
- The port is the longest digit run after an optional `:`.
- `findall` also swallows white space on both sides of a match. It moves one character on where no match starts.

No driver code is run. Each outcome is a `Result`:

- An error stands for one of the three `raise Exception(...)` statements (lines 58, 64 and 94), named after its message, and records no call.
- A success records the constructor call, or the `authenticate` call and the database handle, with their arguments.

Modules:

- `Values`: `Option`, `Result`, truthiness, `str.join`, and `str.split` as its inverse.
- `CharClass`: the ASCII character classes.
- `HostPattern`: the two patterns.
- `PatternFacts`: round trips and the agreement of search with findall.
- `Endpoint`: `normalize_uri`.
- `Connection`: the constructor helpers and `get_connection`.
- `ConnectionCases`: the documented calls and refusals.
- `Database`: `get_database`.

Two points of the code that its docstrings leave open:

- **The authentication database.** The docstring of `get_database` (lines 82-83) says only that `authdb` names a different database to authenticate against. Line 89 uses `authdb` unless `authdb is None`, so an empty `authdb` is still the target, although it does not turn authorisation on by itself (`Database.EmptyAuthdbIsTarget`).
- **The port.** Lines 11-12 format the port group as it was extracted, and only an empty group becomes `27017`. So the port stays digit text: `host:027018` stays `host:027018`.

## Model

| member | source | states |
|---|---|---|
| Endpoint.NormalizeUri | maxutils/mongodb.py:10-15 | the uri is the host, then `:`, then the port verbatim when it is truthy and `27017` when it is empty or absent |
| Endpoint.Normalized | maxutils/mongodb.py:10-15 | filling in the default port keeps the host, keeps a given port, never leaves the port empty, keeps a pair well formed, and is written exactly as `normalize_uri` writes the groups |
| Endpoint.NormalizedReparses | maxutils/mongodb.py:10-15 | the normalised uri of an extracted pair is read back by either pattern as that pair with its port filled in, so normalising never changes the host or a given port |
| Endpoint.NormalizedHasNoComma | maxutils/mongodb.py:10-15 | the normalised uri of a well-formed pair holds no comma |
| Endpoint.NormalizeIdempotent | maxutils/mongodb.py:10-15 | normalising the already normalised pair gives the same uri |
| Connection.GetStandaloneConnection | maxutils/mongodb.py:18-19 | one standalone client call with the uri and the options unchanged |
| Connection.GetClusterConnection | maxutils/mongodb.py:22-24 | one replica-set client call whose replica set and options are the ones given; no hosts give an empty host list, a single host is passed as is, and hosts without commas are exactly the pieces the host list splits into at its commas |
| Connection.NormalizeAll | maxutils/mongodb.py:59 | one uri per extracted pair, in order, each the pair's `normalize_uri` |
| Connection.GetConnection | maxutils/mongodb.py:55-66 | a truthy cluster name leads only to the replica-set client or the too-few-hosts error; otherwise only to the standalone client or the invalid-url error; options are passed through |
| Connection.ClusterDispatch | maxutils/mongodb.py:55-60 | cluster mode fails exactly when findall extracts fewer than three pairs; otherwise the replica set is the cluster name, the host list splits at its commas into the normalised uris of the extracted pairs, and it reads back as the extracted pairs, normalised, in input order |
| Connection.HostListSplits | maxutils/mongodb.py:59-60 | the comma-joined normalised uris split at their commas into exactly those uris |
| Connection.HostListReparses | maxutils/mongodb.py:56-60 | the comma-joined normalised host list is read back by findall as exactly the extracted pairs with their ports filled in, in order |
| Connection.ClusterOfListed | maxutils/mongodb.py:55-60 | for well-formed pairs in their shortest forms with runs of `,`, `;` and white space before, between and after them, cluster mode refuses fewer than three and otherwise passes every pair normalised, in order, joined with commas |
| Connection.ClusterOfList | maxutils/mongodb.py:55-60 | for well-formed pairs, each written in its shortest form (a bare host, or `host:port` with a port) and separated by single commas, cluster mode refuses fewer than three and otherwise passes every pair normalised, in order, joined with commas |
| Connection.StandaloneDispatch | maxutils/mongodb.py:61-66 | standalone mode fails exactly when no character can start a host; otherwise it calls the standalone client with the uri `normalize_uri` writes for the first pair findall would extract, and that uri reads back as this pair with its port filled in |
| Connection.StandaloneBareHost | maxutils/mongodb.py:62-66 | a bare host gets the default port: the uri is `host:27017` |
| Connection.StandaloneGivenPort | maxutils/mongodb.py:62-66 | a `host:port` with a port is handed to the client unchanged |
| Connection.StandaloneDropsScheme | maxutils/mongodb.py:62-66 | a `scheme://host` url is handed over as `host:27017` and a `scheme://host:port` url as `host:port`: the scheme is dropped |
| HostPattern.RunEnd | maxutils/mongodb.py:56 | a greedy repetition stays within the text and stops at the first character outside its class |
| HostPattern.RunEndInClass | maxutils/mongodb.py:56 | every character a greedy repetition consumes is in its class |
| HostPattern.HostStart | maxutils/mongodb.py:62 | the host group starts after the scheme exactly when the scheme group matches and a host character follows it, and at the attempt position otherwise, the scheme group being given up |
| HostPattern.PortStart | maxutils/mongodb.py:62 | the optional `:` after the host is consumed exactly when it stands there |
| HostPattern.MatchAt | maxutils/mongodb.py:62 | a match attempt succeeds exactly when a host character stands at the attempt position, and consumes at least that character |
| HostPattern.SchemeEnd | maxutils/mongodb.py:62 | the optional scheme group, when it matches, starts with a word character and ends with `://` |
| HostPattern.SchemeEndIsWordRun | maxutils/mongodb.py:62 | the scheme group, when it matches, is the longest word run at the attempt position, every character of it a word character, followed by `://` |
| HostPattern.MatchAtWellFormed | maxutils/mongodb.py:62 | every match has a non-empty host free of `:`, white space, `,` and `;`, and a port of decimal digits |
| HostPattern.SearchFrom | maxutils/mongodb.py:62-64 | a search started at a host character finds some pair, never nothing; which pair is `SearchFromLeftmost`'s statement |
| HostPattern.SearchFromLeftmost | maxutils/mongodb.py:62-64 | the search returns the match at the first position where a host character stands |
| HostPattern.SearchFromSpec | maxutils/mongodb.py:62-64 | the search finds nothing exactly when no character from the start position on can start a host, and what it finds is well formed |
| HostPattern.Search | maxutils/mongodb.py:62-64 | `re.search` over the whole url finds nothing exactly when no character can start a host, and its pair is well formed |
| HostPattern.NextAt | maxutils/mongodb.py:56 | one findall attempt matches exactly when a host character follows the leading white space, consumes at least one character, and swallows the white space after the match |
| HostPattern.FindAllFrom | maxutils/mongodb.py:56 | findall extracts no more pairs than there are characters left |
| HostPattern.FindAllFromWellFormed | maxutils/mongodb.py:56 | every pair findall extracts is well formed |
| HostPattern.FindAll | maxutils/mongodb.py:56 | `re.findall` over the whole host list extracts only well-formed pairs |
| PatternFacts.SearchIsFirstOfFindAll | maxutils/mongodb.py:56-62 | the standalone search finds exactly the first pair the cluster findall extracts, and findall extracts nothing exactly when no character can start a host |
| PatternFacts.RenderReparses | maxutils/mongodb.py:56-62 | a well-formed pair written as `host:port` is extracted back as itself by both patterns, so the scheme never leaks into the host and the port is never re-parsed |
| PatternFacts.BareHostReparses | maxutils/mongodb.py:56-62 | a bare host is extracted back by both patterns as that host with an empty port |
| PatternFacts.SchemeIsDropped | maxutils/mongodb.py:56-62 | after a `scheme://` prefix a pair written as `host:port` is still extracted back as itself, by both patterns, and the scheme does not appear in the host |
| PatternFacts.SchemeIsDroppedBare | maxutils/mongodb.py:56-62 | after a `scheme://` prefix a bare host is extracted, by both patterns, as that host alone with an empty port |
| PatternFacts.SchemeTextIsDropped | maxutils/mongodb.py:56-62 | after a `scheme://` prefix a pair in its shortest form, with or without a port, is extracted by both patterns as the pair alone |
| PatternFacts.FindAllFromListed | maxutils/mongodb.py:56 | findall over pairs written in their shortest forms, each followed by the longest run of `,`, `;` and white space, extracts exactly those pairs, in order |
| PatternFacts.ListedReparses | maxutils/mongodb.py:56 | well-formed pairs in their shortest forms, with any runs of `,`, `;` and white space before, between and after them, none empty between two pairs, are extracted back by findall exactly, in order |
| PatternFacts.JoinedListReparses | maxutils/mongodb.py:56 | findall inverts `','.join` over well-formed pairs in their shortest forms |
| Values.Truthy | maxutils/mongodb.py:55 | an optional string argument is falsy exactly when it is `None` or empty |
| Values.Join | maxutils/mongodb.py:23 | joining no parts gives the empty text and joining one part gives that part |
| Values.Split | maxutils/mongodb.py:23 | splitting at a one-character separator gives at least one piece, and no piece holds the separator |
| Values.JoinSplit | maxutils/mongodb.py:23 | splitting a text at a character and joining the pieces with it gives the text back |
| Values.SplitJoin | maxutils/mongodb.py:23 | joining parts without the separator character and splitting the result at it gives the parts back |
| Values.JoinThree | maxutils/mongodb.py:23 | three parts joined are the parts with the separator between neighbours |
| ConnectionCases.LocalhostExample | maxutils/mongodb.py:34 | `get_connection('localhost')` calls the standalone client with `localhost:27017` |
| ConnectionCases.LocalhostPortExample | maxutils/mongodb.py:39 | `get_connection('localhost:27018')` calls the standalone client with `localhost:27018` |
| ConnectionCases.QualifiedUrlExample | maxutils/mongodb.py:43 | `get_connection('mongodb://localhost:27018')` calls the standalone client with `localhost:27018` |
| ConnectionCases.QualifiedBareUrlExample | maxutils/mongodb.py:41-66 | the fully qualified url form the docstring accepts (lines 41-43), without a port and run through the standalone branch (lines 62-66): `get_connection('mongodb://localhost')` calls the standalone client with `localhost:27017` |
| ConnectionCases.ClusterOfThree | maxutils/mongodb.py:55-60 | three comma-separated pairs become the three normalised uris joined with commas, with the cluster name as replica set |
| ConnectionCases.ClusterOfThreeMixed | maxutils/mongodb.py:55-60 | three pairs separated by `; ` and by a comma and a tab, after a space and before a line feed, become the three normalised uris joined with commas, with the cluster name as replica set |
| ConnectionCases.ClusterExample | maxutils/mongodb.py:49 | the documented cluster call passes `server1:27017,server2:27018,server3:27017` with replica set `cluster_name` |
| ConnectionCases.TwoHostClusterRefused | maxutils/mongodb.py:57-58 | a cluster list of two hosts is refused with no call |
| ConnectionCases.EmptyUrlRefused | maxutils/mongodb.py:62-64 | an empty standalone url is refused with no call |
| ConnectionCases.SeparatorsRefused | maxutils/mongodb.py:62-64 | a standalone url of only white space and separators is refused with no call |
| Database.AuthorizationEnabled | maxutils/mongodb.py:87 | authorisation is off exactly when each of username, password and `authdb` is `None` or empty, and a login always turns it on |
| Database.HasLogin | maxutils/mongodb.py:90 | a login is both username and password given and non-empty |
| Database.AuthDbName | maxutils/mongodb.py:89 | the authentication target is `authdb` whenever it is present, even empty, and `db_name` only when it is `None` |
| Database.GetDatabase | maxutils/mongodb.py:87-96 | it fails exactly when some credential argument is truthy but username and password are not both truthy; on success it authenticates once exactly when both are truthy, against the `authdb`/`db_name` target with the given login, and always returns `connection[db_name]` |
| Database.NoCredentialsNoAuth | maxutils/mongodb.py:87-96 | with all three credential arguments falsy nothing is authenticated and `connection[db_name]` is returned |
| Database.AuthdbAloneRefused | maxutils/mongodb.py:87-94 | an `authdb` without username and password is refused |
| Database.HalfLoginRefused | maxutils/mongodb.py:90-94 | a username without a password, or a password without a username, is refused |
| Database.HandleIgnoresCredentials | maxutils/mongodb.py:96 | any two successful selections of the same database name return the same handle, whatever the credentials |
| Database.AuthdbOnlyRetargets | maxutils/mongodb.py:89-92 | with a login given, changing `authdb` changes only the database authenticated against |
| Database.EmptyAuthdbIsTarget | maxutils/mongodb.py:89 | an empty but present `authdb` is authenticated against, and differs from the returned database |
| Database.LoginExample | maxutils/mongodb.py:79-80 | a login without `authdb` authenticates against `mydb` and returns `mydb` |
| Database.AuthdbExample | maxutils/mongodb.py:85 | a login with `authdb='admin'` authenticates against `admin` and returns `mydb` |
| Database.MissingPasswordExample | maxutils/mongodb.py:90-94 | a username without a password is refused |

## Left out

- The pymongo constructors `MongoClient` and `MongoReplicaSetClient`, and `authenticate`. They are driver and network code: the model records each call and its arguments, and says nothing about what the call does or how it can fail.
- The `**kwargs` pass-through. It is an opaque value of a type parameter, carried to the recorded call unchanged.
- `connection[name]`. The connection is an opaque value, and subscripting it is recorded as a handle holding the connection and the name.
- The Unicode meaning of `\w`, `\s` and `\d`. The model reads them as ASCII classes: letters, digits and `_`; space, tab through carriage return; `0` to `9`. Under Unicode matching further characters would belong to these classes.
- Exception objects and their messages. They are the constructors of `ConnectError` and `DatabaseError`.
- Endpoint.NormalizeUri: takes the port as optional text, which is all `get_connection` ever passes. Another caller could pass an integer port, and the falsy integer `0` would also get the default port; that is not modelled.
- Connection.GetClusterConnection: says nothing about splitting a host list back when a host contains a comma. The pieces no longer match the hosts then. The hosts `get_connection` passes never contain one (`Endpoint.NormalizedHasNoComma`).
- Connection.GetConnection: keyword arguments are an opaque value, so their names are not modelled. In Python a keyword that repeats a parameter of the helper it is passed to raises `TypeError`: `uri` at line 66, `hosts` or `replica_set` at line 60, and `replicaSet` at line 24. The model returns the recorded call instead.
- Connection.GetConnection: the cluster name is an optional string. Python also accepts any other truthy value at line 55 and passes it on as the replica set at line 60; such values are not modelled.
- PatternFacts.ListedReparses: the pairs of a list are written in their shortest forms, a bare host or `host:port`. A list whose pairs carry their own `scheme://` prefix, or are written `host:` with an empty port, has no read-back statement; for a whole text of one pair the prefix is covered by `PatternFacts.SchemeTextIsDropped`.
- Database.GetDatabase: credentials are optional strings. Python truthiness of other argument types is not modelled.
- `setup.py`: packaging metadata, with no logic to model.
