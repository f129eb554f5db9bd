/**
 * The outside services the routes call, reduced to the values the routes look at: the screenpipe
 * settings store (`pipe.settings.getAll()`) and one OpenAI chat-completion request. What a request
 * returns is a parameter of every route model; nothing here talks to a network.
 */
module Provider {
  import opened Options

  /** `pipe.settings.getAll()`: it either fails (the route's outer `catch`) or yields the settings, whose
      `openaiApiKey` may be absent. */
  datatype Settings = SettingsUnavailable | Settings(openaiApiKey: Option<string>)

  /** One `openai.chat.completions.create` call: the request is rejected (network, quota, authentication),
      or it resolves to a reply whose `choices[0].message.content` may be `null`. */
  datatype Completion = RequestFailed | Reply(content: Option<string>)

  /** `if (!gptApi)`: an absent key and the empty string are both missing. */
  predicate KeyMissing(key: Option<string>) {
    key.None? || key.value == ""
  }

  /** The settings load and hold a usable key: the routes go past their key check. */
  predicate HasKey(settings: Settings) {
    settings.Settings? && !KeyMissing(settings.openaiApiKey)
  }

  /** `response.choices[0].message.content || ""`: `null` and `""` both read as the empty string. */
  function ContentOrEmpty(content: Option<string>): (s: string)
    ensures content.Some? ==> s == content.value
    ensures content.None? ==> s == ""
  {
    content.GetOr("")
  }
}
