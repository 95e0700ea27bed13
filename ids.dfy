/** The identifiers shared by the streak and task tables: cuid strings. */
module Ids {
  type UserId = string
  type GroupId = string
}
