/** The run configuration the loaders keep between runs (`next_day.json`,
    `next_week.json`, `next_month.json`): only `current_date` is read and
    written, held here as an instant. */
module Cursor {
  class Config {
    var currentDate: int

    constructor (currentDate: int)
      ensures this.currentDate == currentDate
    {
      this.currentDate := currentDate;
    }
  }
}
