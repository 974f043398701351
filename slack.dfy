/** The Slack side of the bridge: the proxy that holds the channel registry,
    the messages it hands to the Slack client, the avatar URL it derives for
    relayed users, and the decoding of Slack's escaped message text. */
module Slack {
  import opened Config
  import opened GoStrings
  import Hex

  datatype Option<T> = None | Some(value: T)

  // ---------------------------------------------------------------------------
  // Channel registry

  /** A channel as the Slack API lists it: its ID and its name without the "#". */
  datatype Channel = Channel(id: string, name: string)

  /** What fetching the channel list gave: the channels, or the error's text. */
  datatype FetchResult = Fetched(channels: seq<Channel>) | FetchFailed(reason: string)

  const ChannelsError := "Could not get Slack channels: "
  const TokenError := "Token must be defined in Slack config"

  /** The configuration-style name of a listed channel. */
  function ChannelName(c: Channel): (n: SlackChannel)
    ensures |n| == |c.name| + 1 && n[0] == '#' && n[1..] == c.name
  {
    "#" + c.name
  }

  /** The name-to-ID map after the channels of `cs` are registered, in order,
      on top of `m`; only names that are keys of `wanted` are registered and a
      later channel overwrites an earlier one of the same name. */
  function RegisterNames(m: map<SlackChannel, string>, cs: seq<Channel>, wanted: map<SlackChannel, string>)
    : (r: map<SlackChannel, string>)
    ensures m.Keys <= r.Keys
    ensures forall n :: n in r ==> (n in m && r[n] == m[n]) || n in wanted
    decreases |cs|
  {
    if cs == [] then m
    else
      var prev := RegisterNames(m, cs[..|cs| - 1], wanted);
      var c := cs[|cs| - 1];
      if ChannelName(c) in wanted then prev[ChannelName(c) := c.id] else prev
  }

  /** The ID-to-name map built by the same pass as RegisterNames. */
  function RegisterIDs(m: map<string, SlackChannel>, cs: seq<Channel>, wanted: map<SlackChannel, string>)
    : (r: map<string, SlackChannel>)
    ensures m.Keys <= r.Keys
    ensures forall id :: id in r ==> (id in m && r[id] == m[id]) || r[id] in wanted
    decreases |cs|
  {
    if cs == [] then m
    else
      var prev := RegisterIDs(m, cs[..|cs| - 1], wanted);
      var c := cs[|cs| - 1];
      if ChannelName(c) in wanted then prev[c.id := ChannelName(c)] else prev
  }

  /** Registering one more channel of `cs` extends both maps by that channel
      alone, if its name is wanted. */
  lemma RegisterNext(names: map<SlackChannel, string>, ids: map<string, SlackChannel>,
                     cs: seq<Channel>, wanted: map<SlackChannel, string>, i: nat)
    requires i < |cs|
    ensures RegisterNames(names, cs[..i + 1], wanted) ==
              if ChannelName(cs[i]) in wanted
              then RegisterNames(names, cs[..i], wanted)[ChannelName(cs[i]) := cs[i].id]
              else RegisterNames(names, cs[..i], wanted)
    ensures RegisterIDs(ids, cs[..i + 1], wanted) ==
              if ChannelName(cs[i]) in wanted
              then RegisterIDs(ids, cs[..i], wanted)[cs[i].id := ChannelName(cs[i])]
              else RegisterIDs(ids, cs[..i], wanted)
  {
    assert cs[..i + 1][..i] == cs[..i];
  }

  /** Some channel of `cs` has the configuration-style name `n`. */
  ghost predicate NameListed(cs: seq<Channel>, n: SlackChannel) {
    exists i :: 0 <= i < |cs| && ChannelName(cs[i]) == n
  }

  /** Some channel of `cs` whose name is wanted has the ID `id`. */
  ghost predicate IDListed(cs: seq<Channel>, wanted: map<SlackChannel, string>, id: string) {
    exists i :: 0 <= i < |cs| && cs[i].id == id && ChannelName(cs[i]) in wanted
  }

  ghost predicate UniqueNames(cs: seq<Channel>) {
    forall i, j :: 0 <= i < j < |cs| ==> cs[i].name != cs[j].name
  }

  ghost predicate UniqueIDs(cs: seq<Channel>) {
    forall i, j :: 0 <= i < j < |cs| ==> cs[i].id != cs[j].id
  }

  /** A name is registered exactly when it was there before, or it is wanted
      and some listed channel carries it. */
  lemma {:induction false} RegisterNamesKeys(m: map<SlackChannel, string>, cs: seq<Channel>,
                                             wanted: map<SlackChannel, string>, n: SlackChannel)
    ensures n in RegisterNames(m, cs, wanted) <==> n in m || (n in wanted && NameListed(cs, n))
    decreases |cs|
  {
    if cs != [] {
      var init, c := cs[..|cs| - 1], cs[|cs| - 1];
      RegisterNamesKeys(m, init, wanted, n);
      if NameListed(cs, n) {
        var i :| 0 <= i < |cs| && ChannelName(cs[i]) == n;
        if i < |cs| - 1 {
          assert init[i] == cs[i];
          assert NameListed(init, n);
        }
      }
      if NameListed(init, n) {
        var i :| 0 <= i < |init| && ChannelName(init[i]) == n;
        assert cs[i] == init[i];
      }
      assert ChannelName(c) == n ==> ChannelName(cs[|cs| - 1]) == n;
    }
  }

  /** An ID is registered exactly when it was there before, or some listed
      channel with a wanted name carries it. */
  lemma {:induction false} RegisterIDsKeys(m: map<string, SlackChannel>, cs: seq<Channel>,
                                           wanted: map<SlackChannel, string>, id: string)
    ensures id in RegisterIDs(m, cs, wanted) <==> id in m || IDListed(cs, wanted, id)
    decreases |cs|
  {
    if cs != [] {
      var init, c := cs[..|cs| - 1], cs[|cs| - 1];
      RegisterIDsKeys(m, init, wanted, id);
      if IDListed(cs, wanted, id) {
        var i :| 0 <= i < |cs| && cs[i].id == id && ChannelName(cs[i]) in wanted;
        if i < |cs| - 1 {
          assert init[i] == cs[i];
          assert IDListed(init, wanted, id);
        }
      }
      if IDListed(init, wanted, id) {
        var i :| 0 <= i < |init| && init[i].id == id && ChannelName(init[i]) in wanted;
        assert cs[i] == init[i];
      }
    }
  }

  /** Starting from an empty registry, every registered name is wanted and
      starts with "#". */
  lemma RegisteredNamesAreWanted(cs: seq<Channel>, wanted: map<SlackChannel, string>, n: SlackChannel)
    requires n in RegisterNames(map[], cs, wanted)
    ensures n in wanted && |n| > 0 && n[0] == '#'
  {
    RegisterNamesKeys(map[], cs, wanted, n);
    var i :| 0 <= i < |cs| && ChannelName(cs[i]) == n;
  }

  /** With distinct names, a wanted listed channel's name maps to its own ID. */
  lemma {:induction false} RegisterNamesAt(m: map<SlackChannel, string>, cs: seq<Channel>,
                                           wanted: map<SlackChannel, string>, i: nat)
    requires UniqueNames(cs) && i < |cs| && ChannelName(cs[i]) in wanted
    ensures ChannelName(cs[i]) in RegisterNames(m, cs, wanted)
    ensures RegisterNames(m, cs, wanted)[ChannelName(cs[i])] == cs[i].id
    decreases |cs|
  {
    var init := cs[..|cs| - 1];
    if i < |cs| - 1 {
      assert init[i] == cs[i];
      RegisterNamesAt(m, init, wanted, i);
      assert cs[i].name != cs[|cs| - 1].name;
    }
  }

  /** With distinct IDs, a wanted listed channel's ID maps to its own name. */
  lemma {:induction false} RegisterIDsAt(m: map<string, SlackChannel>, cs: seq<Channel>,
                                         wanted: map<SlackChannel, string>, i: nat)
    requires UniqueIDs(cs) && i < |cs| && ChannelName(cs[i]) in wanted
    ensures cs[i].id in RegisterIDs(m, cs, wanted)
    ensures RegisterIDs(m, cs, wanted)[cs[i].id] == ChannelName(cs[i])
    decreases |cs|
  {
    var init := cs[..|cs| - 1];
    if i < |cs| - 1 {
      assert init[i] == cs[i];
      RegisterIDsAt(m, init, wanted, i);
      assert cs[i].id != cs[|cs| - 1].id;
    }
  }

  /** When the listed names and IDs are distinct, the two maps built from an
      empty registry are inverse to each other. */
  lemma RegistryIsInverse(cs: seq<Channel>, wanted: map<SlackChannel, string>)
    requires UniqueNames(cs) && UniqueIDs(cs)
    ensures forall n :: n in RegisterNames(map[], cs, wanted) ==>
              RegisterNames(map[], cs, wanted)[n] in RegisterIDs(map[], cs, wanted) &&
              RegisterIDs(map[], cs, wanted)[RegisterNames(map[], cs, wanted)[n]] == n
    ensures forall id :: id in RegisterIDs(map[], cs, wanted) ==>
              RegisterIDs(map[], cs, wanted)[id] in RegisterNames(map[], cs, wanted) &&
              RegisterNames(map[], cs, wanted)[RegisterIDs(map[], cs, wanted)[id]] == id
  {
    var fwd, rev := RegisterNames(map[], cs, wanted), RegisterIDs(map[], cs, wanted);
    forall n | n in fwd
      ensures fwd[n] in rev && rev[fwd[n]] == n
    {
      RegisterNamesKeys(map[], cs, wanted, n);
      var i :| 0 <= i < |cs| && ChannelName(cs[i]) == n;
      RegisterNamesAt(map[], cs, wanted, i);
      RegisterIDsAt(map[], cs, wanted, i);
    }
    forall id | id in rev
      ensures rev[id] in fwd && fwd[rev[id]] == id
    {
      RegisterIDsKeys(map[], cs, wanted, id);
      var i :| 0 <= i < |cs| && cs[i].id == id && ChannelName(cs[i]) in wanted;
      RegisterNamesAt(map[], cs, wanted, i);
      RegisterIDsAt(map[], cs, wanted, i);
    }
  }

  /** The registry of a workspace listing "general" (C1) and "random" (C2)
      when only "#general" is configured. */
  lemma RegistryExample()
    ensures RegisterNames(map[], [Channel("C1", "general"), Channel("C2", "random")], map["#general" := ""])
            == map["#general" := "C1"]
    ensures RegisterIDs(map[], [Channel("C1", "general"), Channel("C2", "random")], map["#general" := ""])
            == map["C1" := "#general"]
  {
    var cs := [Channel("C1", "general"), Channel("C2", "random")];
    assert cs[..1] == [Channel("C1", "general")];
    assert cs[..1][..0] == [];
    assert ChannelName(cs[1]) == "#random";
    assert ChannelName(cs[0]) == "#general";
  }

  /** Every forward entry has a reverse entry and back, and only wanted
      "#"-names are registered. */
  ghost predicate RegistryInvariant(fwd: map<SlackChannel, string>, rev: map<string, SlackChannel>,
                                    wanted: map<SlackChannel, string>)
  {
    && (forall n :: n in fwd ==> fwd[n] in rev)
    && (forall id :: id in rev ==> rev[id] in fwd)
    && (forall n :: n in fwd ==> n in wanted && |n| > 0 && n[0] == '#')
  }

  /** Registering one wanted channel, forward and reverse together, keeps the invariant. */
  lemma RegisterKeepsInvariant(fwd: map<SlackChannel, string>, rev: map<string, SlackChannel>,
                               wanted: map<SlackChannel, string>, c: Channel)
    requires RegistryInvariant(fwd, rev, wanted) && ChannelName(c) in wanted
    ensures RegistryInvariant(fwd[ChannelName(c) := c.id], rev[c.id := ChannelName(c)], wanted)
  {
  }

  // ---------------------------------------------------------------------------
  // Posting

  /** The fields of the Slack client's message parameters that the proxy sets. */
  datatype PostMessageParameters = PostMessageParameters(username: string, asUser: bool, iconURL: string)

  /** One call of the Slack client's PostMessage. */
  datatype PostMessage = PostMessage(channelID: string, text: string, params: PostMessageParameters)

  // ---------------------------------------------------------------------------
  // The proxy

  class SlackProxy {
    const config: SlackConfig
    var channelNameToID: map<SlackChannel, string>
    var channelIDToName: map<string, SlackChannel>

    /** Every forward entry has a reverse entry and back, and only configured
        "#"-names are registered. */
    ghost predicate Valid()
      reads this
    {
      RegistryInvariant(channelNameToID, channelIDToName, config.channels)
    }

    constructor (config: SlackConfig)
      ensures Valid()
      ensures this.config == config
      ensures channelNameToID == map[] && channelIDToName == map[]
    {
      this.config := config;
      channelNameToID := map[];
      channelIDToName := map[];
    }

    /** Registers the fetched channels whose "#"-name is configured, adding to
        what is already registered; a failed fetch changes nothing. */
    method Connect(fetched: FetchResult) returns (err: Option<string>)
      requires Valid()
      modifies this
      ensures Valid()
      ensures fetched.FetchFailed? ==>
                && err == Some(ChannelsError + fetched.reason)
                && channelNameToID == old(channelNameToID)
                && channelIDToName == old(channelIDToName)
      ensures fetched.Fetched? ==>
                && err == None
                && channelNameToID == RegisterNames(old(channelNameToID), fetched.channels, config.channels)
                && channelIDToName == RegisterIDs(old(channelIDToName), fetched.channels, config.channels)
    {
      if fetched.FetchFailed? {
        return Some(ChannelsError + fetched.reason);
      }
      var channels := fetched.channels;
      ghost var names0, ids0 := channelNameToID, channelIDToName;
      for i := 0 to |channels|
        invariant Valid()
        invariant channelNameToID == RegisterNames(names0, channels[..i], config.channels)
        invariant channelIDToName == RegisterIDs(ids0, channels[..i], config.channels)
      {
        var channel := channels[i];
        var channelName := ChannelName(channel);
        RegisterNext(names0, ids0, channels, config.channels, i);
        if channelName in config.channels {
          RegisterKeepsInvariant(channelNameToID, channelIDToName, config.channels, channel);
          channelNameToID := channelNameToID[channelName := channel.id];
          channelIDToName := channelIDToName[channel.id := channelName];
        }
      }
      assert channels[..|channels|] == channels;
      err := None;
    }

    /** The registered name of a channel ID, or "" (Go's zero value) when it
        is not registered. */
    function GetChannelName(channelID: string): (name: SlackChannel)
      reads this
      ensures channelID in channelIDToName ==> name == channelIDToName[channelID]
      ensures Valid() ==> (name == "" <==> channelID !in channelIDToName)
      ensures Valid() && name != "" ==> name in channelNameToID && name in config.channels
    {
      if channelID in channelIDToName then channelIDToName[channelID] else ""
    }

    /** The registered ID of a channel name, or "" when it is not registered. */
    function ChannelID(channelName: SlackChannel): (id: string)
      reads this
      ensures channelName in channelNameToID ==> id == channelNameToID[channelName]
      ensures channelName !in channelNameToID ==> id == ""
      ensures Valid() && channelName !in config.channels ==> id == ""
    {
      if channelName in channelNameToID then channelNameToID[channelName] else ""
    }

    /** The post that relays `text` under `username`, with that user's avatar. */
    method SendMessageAsUser(channelName: SlackChannel, username: string, text: string,
                             md5: string -> Digest, defaults: PostMessageParameters)
      returns (post: PostMessage)
      ensures post.channelID == (if channelName in channelNameToID then channelNameToID[channelName] else "")
      ensures Valid() && channelName !in config.channels ==> post.channelID == ""
      ensures post.text == text
      ensures post.params.username == username && !post.params.asUser
      ensures post.params.iconURL == GenerateUserIconURL(md5, username)
    {
      var channelID := ChannelID(channelName);
      var params := defaults;
      params := params.(username := username);
      params := params.(asUser := false);
      params := params.(iconURL := GenerateUserIconURL(md5, username));
      post := PostMessage(channelID, text, params);
    }

    /** The post that relays `text` under the bridge's own identity. */
    method SendMessageAsBot(channelName: SlackChannel, text: string, defaults: PostMessageParameters)
      returns (post: PostMessage)
      ensures post.channelID == (if channelName in channelNameToID then channelNameToID[channelName] else "")
      ensures Valid() && channelName !in config.channels ==> post.channelID == ""
      ensures post.text == text && post.params == defaults
    {
      var channelID := ChannelID(channelName);
      post := PostMessage(channelID, text, defaults);
    }
  }

  /** A proxy with an empty registry, or an error when the token is empty. */
  method NewSlackProxy(config: SlackConfig) returns (proxy: SlackProxy?, err: Option<string>)
    ensures config.token == "" ==> proxy == null && err == Some(TokenError)
    ensures config.token != "" ==>
              && err == None && proxy != null && fresh(proxy) && proxy.Valid()
              && proxy.config == config
              && proxy.channelNameToID == map[] && proxy.channelIDToName == map[]
  {
    if config.token == "" {
      return null, Some(TokenError);
    }
    proxy := new SlackProxy(config);
    err := None;
  }

  // ---------------------------------------------------------------------------
  // Avatar URL

  /** An MD5 digest: sixteen bytes. */
  type Digest = d: seq<Hex.byte> | |d| == 16 witness seq(16, _ => 0)

  const AvatarPrefix := "http://www.gravatar.com/avatar/"
  const AvatarSuffix := "?d=identicon"

  /** The identicon URL of a user name, given the MD5 function. */
  function GenerateUserIconURL(md5: string -> Digest, username: string): (url: string)
    ensures |AvatarPrefix| == 31 && |AvatarSuffix| == 12 && |url| == 75
    ensures url[..31] == AvatarPrefix && url[63..] == AvatarSuffix
    ensures forall i :: 31 <= i < 63 ==> Hex.IsLowerHexDigit(url[i])
  {
    AvatarPrefix + Hex.Encode(md5(username)) + AvatarSuffix
  }

  /** The 32 digits between prefix and suffix spell the user name's digest. */
  lemma UserIconURLEncodesDigest(md5: string -> Digest, username: string)
    ensures Hex.Decode(GenerateUserIconURL(md5, username)[31..63]) == md5(username)
  {
    var url := GenerateUserIconURL(md5, username);
    assert url[31..63] == Hex.Encode(md5(username));
    Hex.DecodeEncode(md5(username));
  }

  /** Two user names get the same avatar URL exactly when their digests agree. */
  lemma UserIconURLDeterminedByDigest(md5: string -> Digest, u: string, v: string)
    ensures GenerateUserIconURL(md5, u) == GenerateUserIconURL(md5, v) <==> md5(u) == md5(v)
  {
    if GenerateUserIconURL(md5, u) == GenerateUserIconURL(md5, v) {
      UserIconURLEncodesDigest(md5, u);
      UserIconURLEncodesDigest(md5, v);
    }
  }

  // ---------------------------------------------------------------------------
  // Message text

  /** Three successive replace-all passes: "&amp;", then "&lt;", then "&gt;". */
  function DecodeSlackHTMLEntities(input: string): (output: string)
    ensures |output| <= |input|
  {
    ReplaceAll(ReplaceAll(ReplaceAll(input, "&amp;", "&"), "&lt;", "<"), "&gt;", ">")
  }

  /** How Slack escapes one character of message text. */
  function EscapeChar(c: char): (e: string)
    ensures |e| >= 1
  {
    if c == '&' then "&amp;" else if c == '<' then "&lt;" else if c == '>' then "&gt;" else [c]
  }

  /** How Slack escapes message text before delivering it. */
  function SlackEscape(text: string): (escaped: string)
    ensures |text| <= |escaped|
    ensures forall i :: 0 <= i < |escaped| ==> escaped[i] != '<' && escaped[i] != '>'
  {
    if text == [] then [] else EscapeChar(text[0]) + SlackEscape(text[1..])
  }

  /** Text with only '>' escaped: what the "&lt;" pass leaves of escaped text. */
  function EscapeGreater(text: string): (escaped: string) {
    if text == [] then []
    else (if text[0] == '>' then "&gt;" else [text[0]]) + EscapeGreater(text[1..])
  }

  /** The escape of a character with the rest of the text behind it. */
  lemma SlackEscapeCons(text: string)
    requires text != []
    ensures SlackEscape(text) == EscapeChar(text[0]) + SlackEscape(text[1..])
  {
  }

  /** On escaped text without '&', the "&amp;" pass changes nothing. */
  lemma {:induction false} AmpPassOnEscaped(text: string)
    requires forall i :: 0 <= i < |text| ==> text[i] != '&'
    ensures ReplaceAll(SlackEscape(text), "&amp;", "&") == SlackEscape(text)
    decreases |text|
  {
    if text != [] {
      var c, t := text[0], SlackEscape(text[1..]);
      AmpPassOnEscaped(text[1..]);
      SlackEscapeCons(text);
      if c == '<' || c == '>' {
        ReplaceAllCopyMismatch(EscapeChar(c), t, "&amp;", "&");
      } else {
        ReplaceAllCopyChar(c, t, "&amp;", "&");
      }
    }
  }

  /** On escaped text without '&', the "&lt;" pass leaves only '>' escaped. */
  lemma {:induction false} LtPassOnEscaped(text: string)
    requires forall i :: 0 <= i < |text| ==> text[i] != '&'
    ensures ReplaceAll(SlackEscape(text), "&lt;", "<") == EscapeGreater(text)
    decreases |text|
  {
    if text != [] {
      var c, t := text[0], SlackEscape(text[1..]);
      LtPassOnEscaped(text[1..]);
      SlackEscapeCons(text);
      if c == '<' {
        ReplaceAllMatch("&lt;" + t, "&lt;", "<", t);
      } else if c == '>' {
        ReplaceAllCopyMismatch("&gt;", t, "&lt;", "<");
      } else {
        ReplaceAllCopyChar(c, t, "&lt;", "<");
      }
    }
  }

  /** Without '&' in the text, the "&gt;" pass undoes EscapeGreater. */
  lemma {:induction false} GtPassOnEscaped(text: string)
    requires forall i :: 0 <= i < |text| ==> text[i] != '&'
    ensures ReplaceAll(EscapeGreater(text), "&gt;", ">") == text
    decreases |text|
  {
    if text != [] {
      var c, t := text[0], EscapeGreater(text[1..]);
      GtPassOnEscaped(text[1..]);
      if c == '>' {
        ReplaceAllMatch(EscapeGreater(text), "&gt;", ">", t);
      } else {
        ReplaceAllCopyChar(c, t, "&gt;", ">");
      }
      assert text == [c] + text[1..];
    }
  }

  /** Text without '&' is left unchanged by decoding. */
  lemma DecodeWithoutAmpersand(input: string)
    requires forall i :: 0 <= i < |input| ==> input[i] != '&'
    ensures DecodeSlackHTMLEntities(input) == input
  {
    ReplaceAllWithoutFirstChar(input, "&amp;", "&");
    ReplaceAllWithoutFirstChar(input, "&lt;", "<");
    ReplaceAllWithoutFirstChar(input, "&gt;", ">");
  }

  /** Decoding undoes Slack's escaping of any text that has no '&'. */
  lemma DecodeInvertsEscapeWithoutAmpersand(text: string)
    requires forall i :: 0 <= i < |text| ==> text[i] != '&'
    ensures DecodeSlackHTMLEntities(SlackEscape(text)) == text
  {
    AmpPassOnEscaped(text);
    LtPassOnEscaped(text);
    GtPassOnEscaped(text);
  }

  /** "&amp;amp;" decodes to "&amp;": the "&amp;" pass does not rescan its own output. */
  lemma DecodeAmpAmp()
    ensures DecodeSlackHTMLEntities("&amp;amp;") == "&amp;"
  {
    ReplaceAllMatch("&amp;amp;", "&amp;", "&", "amp;");
    ReplaceAllWithoutFirstChar("amp;", "&amp;", "&");
    assert "&amp;" + "" == "&amp;";
    ReplaceAllCopyMismatch("&amp;", "", "&lt;", "<");
    ReplaceAllCopyMismatch("&amp;", "", "&gt;", ">");
  }

  /** Slack's escape of the literal text "&lt;" is decoded to "<", because the
      "&lt;" produced by the "&amp;" pass is decoded again by the next pass. */
  lemma DecodeUnescapesTwice()
    ensures SlackEscape("&lt;") == "&amp;lt;"
    ensures DecodeSlackHTMLEntities(SlackEscape("&lt;")) == "<"
  {
    assert SlackEscape("&lt;") == "&amp;" + SlackEscape("lt;");
    assert SlackEscape("lt;") == "lt;";
    ReplaceAllMatch("&amp;lt;", "&amp;", "&", "lt;");
    ReplaceAllWithoutFirstChar("lt;", "&amp;", "&");
    ReplaceAllMatch("&lt;", "&lt;", "<", "");
    ReplaceAllWithoutFirstChar("<", "&gt;", ">");
  }

  /** A single left-to-right pass that decodes each entity once. */
  function DecodeEntitiesOnce(input: string): (output: string)
    ensures |output| <= |input|
    decreases |input|
  {
    if input == [] then []
    else if StartsWith(input, "&amp;") then "&" + DecodeEntitiesOnce(input[5..])
    else if StartsWith(input, "&lt;") then "<" + DecodeEntitiesOnce(input[4..])
    else if StartsWith(input, "&gt;") then ">" + DecodeEntitiesOnce(input[4..])
    else [input[0]] + DecodeEntitiesOnce(input[1..])
  }

  /** The single-pass decoder turns an escaped character back into itself. */
  lemma DecodeEntitiesOnceHead(c: char, t: string)
    ensures DecodeEntitiesOnce(EscapeChar(c) + t) == [c] + DecodeEntitiesOnce(t)
  {
    if c == '&' {
      var s := "&amp;" + t;
      assert s[..5] == "&amp;" && s[5..] == t;
    } else if c == '<' {
      var s := "&lt;" + t;
      assert s[1] == 'l';
      assert !StartsWith(s, "&amp;");
      assert s[..4] == "&lt;" && s[4..] == t;
    } else if c == '>' {
      var s := "&gt;" + t;
      assert s[1] == 'g';
      assert !StartsWith(s, "&amp;") && !StartsWith(s, "&lt;");
      assert s[..4] == "&gt;" && s[4..] == t;
    } else {
      var s := [c] + t;
      assert s[0] == c && s[1..] == t;
      assert !StartsWith(s, "&amp;") && !StartsWith(s, "&lt;") && !StartsWith(s, "&gt;");
    }
  }

  /** The single-pass decoder undoes Slack's escaping of every text. */
  lemma {:induction false} DecodeEntitiesOnceInvertsEscape(text: string)
    ensures DecodeEntitiesOnce(SlackEscape(text)) == text
    decreases |text|
  {
    if text != [] {
      DecodeEntitiesOnceInvertsEscape(text[1..]);
      SlackEscapeCons(text);
      DecodeEntitiesOnceHead(text[0], SlackEscape(text[1..]));
      assert text == [text[0]] + text[1..];
    }
  }
}
