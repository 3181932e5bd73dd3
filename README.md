# IP_Terminal lookup form, modelled in Dafny

IP_Terminal is a single React page. It asks for an IP address, checks as the
user types that the text is an IPv4 or IPv6 literal, and looks the address up
on a geolocation service. While the request is pending, a ten-second countdown
ticks. The page shows either the returned record or an error message. This
project models the core of that page, in four modules:

- `Text`: the character classes of JavaScript regular expressions (`\d` is
  ASCII-only), `String.prototype.split` on a one-character separator with
  its inverse `Join`, and the decimal value `parseInt(g, 10)` gives a digit
  run.
- `Ipv4`: `isValidIPv4`. It is the regular expression `^(\d{1,3}\.){3}\d{1,3}$`,
  then a range check on each part. It is recognised through `split('.')`
  and proved equal to the "four octets of at most 255" definition.
- `Ipv6`: `isValidIPv6`. Its twelve-alternative regular expression is
  recognised through `split(':')`. Each alternative is also written as a
  ghost predicate in the expression's own shape (repetitions and
  concatenations), and the recogniser is proved to accept exactly their
  union.
- `Form`: the six pieces of component state and the handlers that change
  them. They appear in two forms:
  - a class `App`, whose fields are the state and whose methods are the
    handlers;
  - pure transitions on a `FormState` value, which the methods are proved
    against.

  An invariant on every reachable state is proved over any sequence of
  edits, clicks, responses and ticks.

The outcome of the network request is a parameter of type `FetchOutcome`:
either a decoded response body or an exception.

Where the code and its design description differ, the model follows the code:

- Starting a request does not clear the previous record (src/App.tsx:91-93).
  A stale record stays on screen until the new request ends; `Form.Inv`
  still proves that a record and an error are never shown together.
- The IPv6 expression is not the full address grammar. The model keeps its
  behaviour exactly:
  - six groups followed by a dotted quad are not accepted;
  - the zone form needs the lower-case prefix `fe80:` (`FE80::1%eth0` is
    rejected);
  - the zone form accepts `fe80:%eth0`, with no group after the prefix;
  - an embedded IPv4 octet may not be a three-digit number with a leading
    zero, although `isValidIPv4` accepts such octets.

## Model

| member | source | states |
|---|---|---|
| Text.Split | src/App.tsx:51 | `split` yields at least one field, and no field holds the separator |
| Text.SplitJoin | src/App.tsx:51 | splitting the joined fields gives the fields back |
| Text.JoinSplit | src/App.tsx:51 | joining the fields of a string with the separator gives the string back |
| Text.FieldsOf | src/App.tsx:51 | a list of separator-free fields is the split of `s` exactly when `s` is their join |
| Text.DecimalValue3 | src/App.tsx:53 | `parseInt` of three digits is 100·first + 10·second + third |
| Ipv4.ShapeMatchesRegex | src/App.tsx:48-49 | the part-wise shape test accepts exactly the language of `(\d{1,3}\.){3}\d{1,3}` |
| Ipv4.IsValidIPv4Iff | src/App.tsx:47-56 | accepted exactly when the text is four dot-separated runs of 1–3 ASCII digits, each of value at most 255 |
| Ipv4.ValidHasOnlyDigitsAndDots | src/App.tsx:47-56 | an accepted string holds only digits and dots, so no colon and no `%` |
| Ipv4.AcceptsLeadingZeros | src/App.tsx:47-56 | "010.0.0.1" is accepted: leading zeros are allowed |
| Ipv4.RejectsOctetAbove255 | src/App.tsx:52-55 | "256.1.1.1" is rejected by the range check |
| Ipv4.RejectsThreeGroups | src/App.tsx:48-49 | "1.2.3" is rejected by the shape test |
| Ipv6.QuadMatchesRegex | src/App.tsx:59 | the embedded dotted quad is exactly `(?:OCTET\.){3}OCTET` of the expression |
| Ipv6.FullFormMatchesRegex | src/App.tsx:59 | eight hex groups of 1–4 digits are exactly the first alternative |
| Ipv6.TrailingMatchesRegex | src/App.tsx:59 | the `l::` form is exactly the second alternative |
| Ipv6.InnerMatchesRegex | src/App.tsx:59 | the `l::r` form (groups on both sides, at most seven) is exactly the union of alternatives three to eight |
| Ipv6.LeadingMatchesRegex | src/App.tsx:59 | the `::r` and `::` forms are exactly the ninth alternative |
| Ipv6.ZoneMatchesRegex | src/App.tsx:59 | the link-local-with-zone form is exactly the tenth alternative |
| Ipv6.MappedMatchesRegex | src/App.tsx:59 | the `::q` / `::ffff:q` / `::ffff:0:q` forms are exactly the eleventh alternative |
| Ipv6.CompressedIpv4MatchesRegex | src/App.tsx:59 | the `l::q` form is exactly the twelfth alternative |
| Ipv6.IsValidIPv6MatchesRegex | src/App.tsx:58-61 | the recogniser accepts exactly the strings the whole anchored expression matches |
| Ipv6.ValidIPv6HasColon | src/App.tsx:58-61 | every accepted string holds a colon |
| Ipv6.NoAddressIsBoth | src/App.tsx:47-61 | no string passes both `isValidIPv4` and `isValidIPv6` |
| Ipv6.GroupsAreShortHex | src/App.tsx:59 | without `%`, every colon-separated field is at most four hex digits, except that the last may be a dotted quad |
| Ipv6.ZoneOnlyAfterLinkLocal | src/App.tsx:59 | a `%` is accepted only after the lower-case prefix `fe80:`, and is followed by one or more letters or digits |
| Ipv6.EmbeddedOctetIff | src/App.tsx:59 | an embedded octet is a 1–3 digit run of value at most 255 with no leading zero in three digits |
| Ipv6.EmbeddedQuadIsIpv4 | src/App.tsx:47-59 | every embedded dotted quad also passes `isValidIPv4` |
| Ipv6.EmbeddedOctetsInRange | src/App.tsx:59 | in an accepted string with a dot, the last field is a dotted quad with every octet at most 255 |
| Ipv6.FullFormAccepted | src/App.tsx:59 | any eight hex groups of 1–4 digits joined by colons are accepted |
| Ipv6.CompressedAccepted | src/App.tsx:59 | `l::r` with 1–6 groups on each side and at most seven in all is accepted |
| Ipv6.LeadingCompressedAccepted | src/App.tsx:59 | `::r` with up to seven groups is accepted, `::` included |
| Ipv6.TrailingCompressedAccepted | src/App.tsx:59 | `l::` with one to seven groups is accepted |
| Ipv6.AcceptedByFields | src/App.tsx:59 | a string whose colon-separated fields take one of the field forms is accepted |
| Ipv6.QuadOf | src/App.tsx:59 | four embedded octets joined by dots form an embedded quad |
| Ipv6.MappedAccepted | src/App.tsx:59 | a dotted quad after `::` or after `::ffff:` is accepted |
| Ipv6.ZoneAccepted | src/App.tsx:59 | `fe80:`, up to four colon-led runs of 0–4 hex digits, `%` and a zone index is accepted |
| Ipv6.RejectedZoneWithoutLinkLocal | src/App.tsx:59 | a string with `%` that does not begin with lower-case `fe80:` is rejected |
| Ipv6.RejectedByField | src/App.tsx:59 | without `%`, a non-last field that is not 0–4 hex digits makes the string rejected |
| Ipv6.AcceptsFullForm | src/App.tsx:59 | "2001:0db8:0000:0000:0000:ff00:0042:8329" is accepted |
| Ipv6.AcceptsLoopback | src/App.tsx:59 | "::1" is accepted |
| Ipv6.AcceptsLinkLocal | src/App.tsx:59 | "fe80::1" is accepted |
| Ipv6.AcceptsZone | src/App.tsx:59 | "fe80::1%eth0" is accepted |
| Ipv6.AcceptsMappedIpv4 | src/App.tsx:59 | "::ffff:192.168.1.1" is accepted |
| Ipv6.RejectsLongGroup | src/App.tsx:59 | "12345::1" is rejected: a five-digit group |
| Ipv6.RejectsNonHex | src/App.tsx:59 | "2001:xyz::1" is rejected: non-hex characters |
| Ipv6.RejectsUpperCaseZonePrefix | src/App.tsx:59 | "FE80::1%eth0" is rejected: the zone form is lower-case only |
| Ipv6.AcceptsZoneWithoutGroups | src/App.tsx:59 | "fe80:%eth0" is accepted: the zone form needs no group |
| Form.FailureMessage | src/App.tsx:101 | the error for a "fail" status is never empty, and is the service's message whenever that is present and non-empty |
| Form.EmptyIsNotAddress | src/App.tsx:63-68 | the empty string passes neither validator |
| Form.ValidationVerdict | src/App.tsx:63-74 | the "required" message for empty text, the "bad format" message for text neither validator accepts, and no message exactly when the text is an address |
| Form.InitialSatisfiesInv | src/App.tsx:32-37 | the initial state satisfies the form invariant |
| Form.StepPreservesInv | src/App.tsx:39-113 | an edit, a click, a response or a tick keeps the form invariant |
| Form.RunPreservesInv | src/App.tsx:39-113 | any sequence of events keeps the form invariant |
| Form.ReachableStatesAreConsistent | src/App.tsx:32-113 | in every reachable state the countdown is within 0..10, and a record and an error are never shown together |
| Form.SubmitEnabledIff | src/App.tsx:153 | in a reachable state the button is enabled exactly when no request is pending and the typed text is an address |
| Form.EnabledClickStartsRequest | src/App.tsx:86-93 | clicking the enabled button always passes re-validation: the request starts with countdown 10 and no error |
| Form.SubmitInvalidOnlyValidates | src/App.tsx:86-89 | submitting text that is not an address changes only the validation message, whatever the request would have returned |
| Form.SubmitValidSettles | src/App.tsx:86-113 | submitting an address ends idle with countdown 0 and exactly one of a record and an error, chosen by the three outcomes |
| Form.TickNeverNegative | src/App.tsx:39-45 | a tick lowers a positive countdown by one, leaves 0 alone, and never goes below zero |
| Form.App.constructor | src/App.tsx:32-37 | the form starts with empty text, no record, not loading, no messages and countdown 0 |
| Form.App.ValidateIP | src/App.tsx:63-74 | returns true exactly for an address; sets the required, bad-format or empty message by the three branches |
| Form.App.HandleInputChange | src/App.tsx:76-84 | stores the text; validates non-empty text and clears the message for empty text; changes nothing else |
| Form.App.StartLookup | src/App.tsx:86-93 | on an address: starts the countdown at 10, sets loading and clears the error; otherwise only the validation message changes |
| Form.App.FinishLookup | src/App.tsx:95-112 | records the record, the fail message or the generic error by outcome, then ends with loading false and countdown 0 |
| Form.App.GetIpInfo | src/App.tsx:86-113 | the whole submit: only the validation message changes for a non-address; otherwise it ends idle with countdown 0 |
| Form.App.Tick | src/App.tsx:39-45 | one less while the countdown is positive, unchanged otherwise |
| Form.App.CanSubmit | src/App.tsx:153 | enabled exactly when no request is pending and the typed text is an address |

## Left out

- The HTTP request, the JSON decoding and the service's field list (src/App.tsx:96-99) are not modelled. Their result is the `FetchOutcome` parameter.
- The `await` point: `FinishLookup` runs after `StartLookup` with nothing in between. The `Form.Step` trace allows edits and ticks between them, but not a second request overlapping the first.
- The one-second `setTimeout` and its cancellation in the countdown effect are not modelled. Each `Tick` stands for one timer firing.
- Rendering (the JSX, the loading banner, the record table) and the `lat`, `lon` and `offset` fields of the record are not modelled. The record's other fields are kept as opaque label/value text.
- A general regular-expression engine is not modelled. The IPv6 expression is written out as a ghost predicate per alternative, and the recogniser is proved equal to their union.
- The input's change event is not modelled: the handler receives the new text directly.
