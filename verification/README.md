# MinimalAPI utility handlers in Dafny

The MinimalAPI service is a set of stateless HTTP endpoints written as ASP.NET
minimal-API lambdas in `exercisefiles/dotnet/MinimalAPI/Program.cs`. Most of
them are direct calls to the clock, the file system, the network or
`System.Uri`. This project models the four handlers that contain a decision of
their own:

- `/validatephonenumber` (module `PhoneValidation`, `phone.dfy`): an input is
  valid when it is exactly ten characters long and every character is a digit.
- `/validatespanishdni` (module `DniValidation`, `dni.dfy`), as the code is
  written. It checks the length, cuts the input into an eight-character number
  and a one-character letter, and tries to parse the number. The checksum
  comparison is an empty block, and the result flag starts false and is never
  set. So the handler answers `false` for every input and never throws. A
  completed mod-23 checksum is not modelled. With the standard letter table it
  would accept "12345678Z", which the integration test pins to `false`.
- `/returncolorcode`, search part (module `ColorLookup`, `colors.dfy`): a
  first-match scan over the records deserialised from colors.json. Names are
  compared with `OrdinalIgnoreCase`. The answer is the HEX code of the first
  match, or "not found" when the list is null or nothing matches. A record
  with a null name that the scan reaches, or a matching record with a null
  `Code`, makes the handler throw `NullReferenceException`. That outcome is
  modelled as `Threw(NullReference)`. A matching record whose HEX is null is
  answered with `Ok` and a null body.
- `/randomeuropeancountry`, selection part (module `EuropeanCountries`,
  `countries.dfy`): indexing a fixed ten-entry table. The random draw is an
  injected index in [0, 10), which is the range `random.Next(countries.Length)` promises for the ten-entry table.

The module `DotNet` (`dotnet.dfy`) models the .NET library calls these handlers
make, limited to what the handlers can observe: `char.IsDigit`,
`Enumerable.All`, `string.Substring` with its `ArgumentOutOfRangeException`,
`int.TryParse`, and ordinal case-insensitive string equality. `Wrappers`
(`wrappers.dfy`) defines `Option` (a reference that may be null) and `Result`
(a value or the exception a call throws).

## Model

| member | source | states |
|---|---|---|
| PhoneValidation.ValidatePhoneNumber | exercisefiles/dotnet/MinimalAPI/Program.cs:28-32 | The handler answers true exactly when the input has length 10 and every character is a digit. |
| PhoneValidation.WrongLengthRejected | exercisefiles/dotnet/MinimalAPI/Program.cs:30 | No normalisation is applied, so any input whose length is not 10 is rejected. |
| PhoneValidation.NonDigitRejected | exercisefiles/dotnet/MinimalAPI/Program.cs:30 | One non-digit anywhere in the input is enough to reject it. |
| PhoneValidation.TenDigitNumbersAccepted | exercisefiles/dotnet/MinimalAPI/Program.cs:30 | The decimal form of every number from 10^9 to 10^10 - 1 is accepted. |
| PhoneValidation.TenDigitsAccepted | exercisefiles/dotnet/MinimalAPI/Program.cs:30 | Any ten-character input made of ASCII digits is accepted. |
| PhoneValidation.AcceptedTestCases | exercisefiles/dotnet/MinimalAPI.Tests/IntegrationTests.cs:26-29 | "1234567890", "0987654321" and "5555555555" are accepted. |
| PhoneValidation.RejectedTestCases | exercisefiles/dotnet/MinimalAPI.Tests/IntegrationTests.cs:30-32 | "12345", "abcdefghij" and "123-456-7890" are rejected. |
| DotNet.DigitCharacters | exercisefiles/dotnet/MinimalAPI/Program.cs:30 | A character is a digit exactly when it is one of the ten characters "0123456789". |
| DotNet.AllDigits | exercisefiles/dotnet/MinimalAPI/Program.cs:30 | `All(char.IsDigit)` holds exactly when every character is a digit. This includes the empty string. |
| DniValidation.ValidateSpanishDni | exercisefiles/dotnet/MinimalAPI/Program.cs:35-50 | For every input the handler completes without an exception and answers false. |
| DniValidation.SlicesInBounds | exercisefiles/dotnet/MinimalAPI/Program.cs:38-42 | On a nine-character input both substrings are in range. Together, the eight-character number part and the one-character letter part give back the input. |
| DniValidation.TestNumberPartParses | exercisefiles/dotnet/MinimalAPI/Program.cs:44 | The number part "12345678" of the test input parses to 12345678. |
| DniValidation.IntegrationTestCase | exercisefiles/dotnet/MinimalAPI.Tests/IntegrationTests.cs:44-57 | For "12345678Z", the number part "12345678" parses to 12345678, so the parse branch is reached. The answer is still false. |
| DotNet.Substring | exercisefiles/dotnet/MinimalAPI/Program.cs:41-42 | A substring succeeds exactly when the requested range lies inside the string. It then holds the `length` characters starting at the start index. Otherwise it fails with ArgumentOutOfRange. |
| DotNet.TryParseInt32 | exercisefiles/dotnet/MinimalAPI/Program.cs:44 | Parsing succeeds exactly on a non-empty run of digits whose value fits in an Int32. The parsed value lies in [0, Int32.MaxValue]. |
| DotNet.TryParseOfToDecimal | exercisefiles/dotnet/MinimalAPI/Program.cs:44 | Every non-negative Int32 written in decimal parses back to itself. |
| DotNet.DigitsValueOfToDecimal | exercisefiles/dotnet/MinimalAPI/Program.cs:44 | Evaluating a number's decimal digits gives back the number. |
| DotNet.LeadingZeroIgnored | exercisefiles/dotnet/MinimalAPI/Program.cs:44 | For any non-empty string, a leading zero does not change what the modelled parse answers. On non-empty digit strings this is also true of `int.TryParse`. |
| DotNet.ToUpper | exercisefiles/dotnet/MinimalAPI/Program.cs:60 | Case folding never yields a lower-case ASCII letter. It maps each ASCII letter to the same letter in some case and leaves every character that is not an ASCII letter unchanged. |
| DotNet.ToUpperIdempotent | exercisefiles/dotnet/MinimalAPI/Program.cs:60 | Folding an already folded character changes nothing. |
| DotNet.EqualsIgnoreCase | exercisefiles/dotnet/MinimalAPI/Program.cs:60 | Strings that are equal ignoring case have the same length, and equal strings are equal ignoring case. |
| DotNet.EqualsIgnoreCaseIsEquivalence | exercisefiles/dotnet/MinimalAPI/Program.cs:60 | Case-insensitive name equality is reflexive, symmetric and transitive. |
| DotNet.ToUpperAgrees | exercisefiles/dotnet/MinimalAPI/Program.cs:60 | Two characters are equal ignoring case exactly when they are equal or are the two cases of one ASCII letter. |
| DotNet.EqualsIgnoreCaseByCharacters | exercisefiles/dotnet/MinimalAPI/Program.cs:60 | Two strings are equal ignoring case exactly when they have the same length and, position by position, hold equal characters or the two cases of one ASCII letter. |
| ColorLookup.FirstOrDefaultFrom | exercisefiles/dotnet/MinimalAPI/Program.cs:60 | The scan returns the index of the first entry whose name matches, with every earlier entry passed over. It misses exactly when no entry matches and no name is null. It throws exactly when a null name is reached before any match. |
| ColorLookup.FirstHitUnique | exercisefiles/dotnet/MinimalAPI/Program.cs:60 | At most one entry is the first match. |
| ColorLookup.ReturnColorCode | exercisefiles/dotnet/MinimalAPI/Program.cs:60-69 | The answer is Ok(hex) exactly when some entry is the first match and has a code. hex is then that entry's HEX, which may itself be null. The answer is NotFound exactly when the list is null, or no entry matches and no name is null. Every other answer is a NullReference. |
| ColorLookup.QueryCaseInsensitive | exercisefiles/dotnet/MinimalAPI/Program.cs:60 | Two queries that are equal ignoring case get the same answer. |
| ColorLookup.IntegrationTestCase | exercisefiles/dotnet/MinimalAPI.Tests/IntegrationTests.cs:59-72 | On a palette whose first "red"-like entry is "Red" = "#FF0000", the query "red" answers "#FF0000" and not the later "RED". An unknown name, a null list and an empty list answer NotFound. |
| ColorLookup.NullFieldCases | exercisefiles/dotnet/MinimalAPI/Program.cs:60-65 | A matching record with a null HEX answers Ok with a null body. A matching record with a null Code throws a NullReference, and so does a record with a null name that the scan reaches first. |
| EuropeanCountries.RandomEuropeanCountry | exercisefiles/dotnet/MinimalAPI/Program.cs:140-142 | Every draw in [0, 10) selects a country of the fixed table, with a non-empty name and a two-letter upper-case code. |
| EuropeanCountries.TableShape | exercisefiles/dotnet/MinimalAPI/Program.cs:125-138 | The table has ten entries, and no name and no ISO code appears twice. |
| EuropeanCountries.SelectionInjective | exercisefiles/dotnet/MinimalAPI/Program.cs:125-141 | Different draws select different countries. |
| EuropeanCountries.EveryCountryReachable | exercisefiles/dotnet/MinimalAPI/Program.cs:125-141 | Every country of the table is selected by some draw. |

## Left out

- `/` (Program.cs:18) always returns the constant "Hello World!". It holds no decision to model.
- `/DaysBetweenDates` (Program.cs:21-25) uses `DateTime` arithmetic and a floating-point `TotalDays`.
- `/getjoke` and `/moviesbytitle` (Program.cs:73-87) are outbound HTTP calls to third-party APIs.
- `/parseurl` (Program.cs:90-103): every field comes from `System.Uri`, whose parsing, default-port resolution and path normalisation are library code outside this model.
- `/listfiles` (Program.cs:106-111) reads the file system.
- `/calculatememoryconsumption` (Program.cs:114-120) reads process statistics and rounds a floating-point value.
- Reading colors.json and deserialising it (Program.cs:56-57) is file I/O. The lookup takes the deserialised list as a parameter. Null `Name`, `Code` and `HEX` fields are modelled, but a null element of the list itself is not. The shipped colors.json is not part of this model, so the colour example uses its own sample palette.
- The `Random` instance (Program.cs:140-141) is replaced by an injected draw. ASP.NET routing, Swagger, HTTPS redirection and the JSON serialisation of `Results.Ok` are framework concerns.
- The mod-23 DNI checksum and its letter table are not modelled. The code never computes them (Program.cs:46 is a commented-out stub), and the integration test expects `false` for an input that a completed checksum would accept.
- DotNet.AllDigits: `char.IsDigit` is restricted to the ASCII digits '0' to '9'. .NET also accepts every other Unicode decimal digit, so the phone model rejects, for example, ten Arabic-Indic digits, which the service accepts.
- DotNet.TryParseInt32: accepts only unsigned ASCII digit strings. Leading and trailing white space, a sign and culture settings are not modelled. The DNI answer does not depend on the parse result.
- DotNet.LeadingZeroIgnored: holds of the modelled parse for every non-empty string, but of .NET's `int.TryParse` only for digit strings, because .NET accepts a sign and surrounding white space: "-1" parses to -1 while "0-1" fails, and " 1" parses while "0 1" fails.
- DotNet.ToUpper: only ASCII letters are folded. `OrdinalIgnoreCase` also folds non-ASCII letters, so the colour lookup model treats names that differ only in the case of a non-ASCII letter as different.
- A Dafny `char` is a Unicode scalar value, not a UTF-16 code unit. A character outside the Basic Multilingual Plane therefore counts once in the model but twice in .NET's `Length`, and a lone surrogate cannot be represented. No phone answer depends on this. Such characters are never ASCII digits, so they reject a phone number in both, and a ten-character input is only accepted when every character is a digit, which is a single code unit in both. The model never folds them, so in a name comparison such a character matches only itself. The case pairs among them that .NET folds fall under the DotNet.ToUpper line.
