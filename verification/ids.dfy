/** The Discord snowflake ids the bot compares, as unbounded naturals. */
module Ids {
  type UserId = nat
  type GuildId = nat
  type ChannelId = nat
}
