/** What the forwarder decided about one claimed event (gateway/include/gateway/sqlite/store.hpp). */
module Deliveries {

  datatype Action = Accepted | Duplicate | Rejected | Retry

  datatype Decision = Decision(action: Action, reason: string)
}
