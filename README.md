# Pino's Slack proxy, modelled in Dafny

Pino relays messages between an IRC network and a Slack workspace. This project
models the Slack side of the bridge (`slack.go`) and proves properties of it.

- **The proxy and its channel registry.** `Slack.SlackProxy` is a class with the
  configuration and two maps: Slack channel name to channel ID, and ID back to name.
  `Slack.NewSlackProxy` refuses an empty token. Otherwise it returns a proxy whose
  maps are empty.
- **Registration.** `Slack.SlackProxy.Connect` walks the fetched channel list.
  It puts `#` in front of each name. It registers the channel in both maps only
  if that name is a key of the Slack configuration's `Channels`. What the loop
  builds is stated by the functions `RegisterNames` and `RegisterIDs`, and the
  lemmas about the registry are proved on those functions.
- **Lookups and posting.** `GetChannelName` and `ChannelID` return Go's zero value
  `""` for a missing key. `SendMessageAsUser` and `SendMessageAsBot` return the
  `PostMessage` request the proxy hands to the Slack client.
- **Avatar URL.** `Slack.GenerateUserIconURL` builds the Gravatar identicon URL.
  The MD5 digest is abstract. `Hex` models the `%x` formatting of the digest.
- **Entity decoding.** `Slack.DecodeSlackHTMLEntities` makes three replace-all
  passes, in the order `&amp;`, `&lt;`, `&gt;`. `GoStrings.ReplaceAll` models Go's
  `strings.Replace` with a count of -1: occurrences are replaced left to right
  and never overlap. `Slack.SlackEscape` models Slack's own escaping of message
  text, against which the decoding is proved.

Foreign calls become parameters:
- the channel list fetch is an input `FetchResult`;
- MD5 is a function parameter `md5: string -> Digest`;
- the defaults of `slack.NewPostMessageParameters()` are a parameter `defaults`;
- a call to `PostMessage` is the returned `PostMessage` value.

Three behaviours of the code are worth stating plainly:
- `connect` does not clear the two maps, so a second connect adds to the old entries.
- A send to an unregistered channel is not skipped: it posts to channel ID `""`.
- Decoding runs three passes in sequence, so an entity can be decoded twice,
  although the comment at slack.go:91-92 says the aim is to undo Slack's
  escaping. See "## Findings".

## Model

| member | source | states |
|---|---|---|
| `Slack.NewSlackProxy` | slack.go:19-35 | An empty token gives no proxy and the error "Token must be defined in Slack config". Any other token gives a fresh, valid proxy with this configuration and two empty maps. |
| `Slack.SlackProxy.constructor` | slack.go:20-32 | The new proxy holds the configuration and two empty maps, and it satisfies the registry invariant. |
| `Slack.SlackProxy.Connect` | slack.go:37-58 | A failed fetch returns "Could not get Slack channels: " followed by the reason, and both maps stay as they were. A successful fetch returns no error. The maps are then exactly `RegisterNames` and `RegisterIDs` of the old maps and the list, filtered by the configuration's `Channels`. The registry invariant is kept. |
| `Slack.ChannelName` | slack.go:47 | The configuration-style name of a listed channel is its API name with one `#` in front. |
| `Slack.RegisterNames` | slack.go:45-53 | The name-to-ID map after the loop keeps every key it had before. Each of its entries is either an unchanged old entry or a configured name. |
| `Slack.RegisterIDs` | slack.go:45-53 | The ID-to-name map after the loop keeps every key it had before. Each of its entries is either an unchanged old entry or maps to a configured name. |
| `Slack.RegisterKeepsInvariant` | slack.go:50-53 | Writing a forward entry and its reverse entry together keeps the invariant. Every name has a reverse entry and every ID has a forward entry. Only configured names that start with `#` are registered. |
| `Slack.RegisterNamesKeys` | slack.go:45-53 | A name is registered after the loop iff it was registered before, or it is a configured key equal to `"#" + name` of some listed channel. |
| `Slack.RegisterIDsKeys` | slack.go:45-53 | An ID is registered after the loop iff it was registered before, or some listed channel with a configured `#`-name has that ID. |
| `Slack.RegisteredNamesAreWanted` | slack.go:46-51 | Starting from empty maps, every registered name is a key of the configuration and starts with `#`. |
| `Slack.RegisterNamesAt` | slack.go:51 | If listed names are distinct, the `#`-name of every configured listed channel maps to that channel's ID. |
| `Slack.RegisterIDsAt` | slack.go:52 | If listed IDs are distinct, the ID of every configured listed channel maps to that channel's `#`-name. |
| `Slack.RegistryIsInverse` | slack.go:51-52 | If listed names and IDs are distinct, the two maps built from empty are inverse to each other in both directions. |
| `Slack.RegistryExample` | slack.go:45-53 | Channels `general` (C1) and `random` (C2), with only `#general` configured, give the maps `{#general: C1}` and `{C1: #general}`. |
| `Slack.SlackProxy.GetChannelName` | slack.go:87-89 | A registered ID gives its registered name. On a valid proxy the result is `""` iff the ID is unregistered, and a non-empty result is a registered and configured name. |
| `Slack.SlackProxy.ChannelID` | slack.go:65 | A registered name gives its ID and an unregistered name gives `""`. On a valid proxy, a name that is not configured always gives `""`. |
| `Slack.SlackProxy.SendMessageAsUser` | slack.go:64-75 | The post goes to the registered ID of the channel, or to `""` if it is unregistered, and always to `""` for a channel that is not configured. It carries the text unchanged, the user name, `AsUser` false, and the user's avatar URL. |
| `Slack.SlackProxy.SendMessageAsBot` | slack.go:77-85 | The post resolves the channel the same way. It carries the text unchanged and the default parameters untouched. |
| `Slack.GenerateUserIconURL` | slack.go:60-62 | The URL is 75 characters long. It is the Gravatar prefix, then 32 lowercase hexadecimal digits, then `?d=identicon`. It is a function of the digest function and the name, so the same name always gives the same URL. |
| `Slack.UserIconURLEncodesDigest` | slack.go:61 | The 32 digits of the URL decode to the MD5 digest of the user name. |
| `Slack.UserIconURLDeterminedByDigest` | slack.go:60-62 | Two user names get the same URL iff their digests are equal. |
| `Hex.Digit` | slack.go:61 | Every nibble is written as one lowercase hexadecimal digit, and that digit reads back as the nibble. |
| `Hex.Encode` | slack.go:61 | `%x` of n bytes is 2n lowercase hexadecimal digits. |
| `Hex.DecodeEncode` | slack.go:61 | Reading back the digits that `%x` writes gives the original bytes. |
| `Hex.EncodeInjective` | slack.go:61 | Two byte sequences have the same `%x` text iff they are equal. |
| `GoStrings.ReplaceAll` | slack.go:96-98 | A replace-all never makes a string longer when the replacement is no longer than the pattern. |
| `GoStrings.ReplaceAllWithoutFirstChar` | slack.go:96-98 | A string in which the pattern's first character never occurs comes out of a replace-all unchanged. |
| `Slack.DecodeSlackHTMLEntities` | slack.go:93-101 | The decoded text is never longer than the input. |
| `Slack.DecodeWithoutAmpersand` | slack.go:93-101 | Text without `&` is left unchanged by decoding. |
| `Slack.DecodeInvertsEscapeWithoutAmpersand` | slack.go:91-101 | Decoding gives back the original text of Slack's escaping, for every text that has no `&`. |
| `Slack.DecodeAmpAmp` | slack.go:96-98 | `"&amp;amp;"` decodes to `"&amp;"`, because a pass does not rescan its own output. |
| `Slack.SlackEscape` | slack.go:91-92 | Slack's escaping never shortens text, and its result has no `<` or `>` in it. |
| `Slack.DecodeUnescapesTwice` | slack.go:96-97 | Slack's escaping of the text `&lt;` is `&amp;lt;`, and the code decodes that to `<`. |
| `Slack.DecodeEntitiesOnce` | slack.go:91-101 | The single-pass decoder never makes text longer. |
| `Slack.DecodeEntitiesOnceInvertsEscape` | slack.go:91-92 | The single-pass decoder gives back every text from its Slack escaping. |

## Findings

| source | as written | input that shows it | evidently intended | confidence | as-written member | corrected member |
|---|---|---|---|---|---|---|
| slack.go:96-98 | `&amp;` is decoded first, and the next two passes decode again any `&lt;` or `&gt;` that the first pass produced | A user types `&lt;` in Slack. Slack sends `&amp;lt;`, and the bridge relays `<` | Decode each entity once, so that decoding inverts Slack's escaping and `&amp;lt;` gives back `&lt;`. `Slack.DecodeEntitiesOnceInvertsEscape` proves this for every text | not executed; high | `Slack.DecodeUnescapesTwice` | `Slack.DecodeEntitiesOnce` |

`Slack.DecodeSlackHTMLEntities` still models the code as written. No other member of the model takes decoded text, so nothing depends on which decoder is used.

## Left out

- `LoadConfig` (config.go:43-57): it reads a file and parses YAML through a foreign library. Only its types are modelled, in module `Config`.
- `go proxy.rtm.ManageConnection()` (slack.go:38): a background goroutine of the Slack client library. Concurrency is not modelled.
- `slack.New` and `NewRTM` (slack.go:28-29): the client objects are not modelled. The token is checked and kept in the configuration.
- `GetChannels` (slack.go:41): a network call. It is the input `FetchResult`. The `%v` of its error is taken to be the reason text.
- `PostMessage` (slack.go:71, 81): a network call. Its request is returned as a `PostMessage` value. Its error is only printed by the source, so it is not modelled.
- The `fmt.Printf` logging (slack.go:55, 73, 83): output only.
- MD5 (slack.go:61): its internals and the UTF-8 conversion `[]byte(username)` are abstract. Together they are the parameter `md5`, which returns 16 bytes.
- `slack.PostMessageParameters` and `slack.Channel` are library types. The model has only the fields the proxy reads or sets: `Username`, `AsUser` and `IconURL`, and `ID` and `Name`.
- Of the configuration types, only `SlackConfig` and `SlackChannel` are modelled, because the Slack proxy reads nothing else. `SlackChannel` is a type synonym of `string` here.
- Go strings are byte strings; here they are sequences of characters. This does not change `ReplaceAll`, `ChannelName` or the length bound of `DecodeSlackHTMLEntities`: the patterns and `#` are ASCII, and an ASCII byte never occurs inside a multi-byte UTF-8 sequence, so the matches and the length relation are the same.
- The IRC connector and the relay engine are not part of this model.
