/** The three states a card on either page can be in. */
module Lifecycles {

  /** Not started yet, running now, or over. */
  datatype Lifecycle = Upcoming | Ongoing | Ended
}
