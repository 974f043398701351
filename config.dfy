/** The part of the bridge's configuration that the Slack proxy reads. */
module Config {

  /** A Slack channel as the configuration names it, with its leading "#". */
  type SlackChannel = string

  /** The Slack section of the configuration: the owner, the API token and the
      channels the bridge relays, keyed by name. */
  datatype SlackConfig = SlackConfig(
    owner: string,
    token: string,
    channels: map<SlackChannel, string>)
}
