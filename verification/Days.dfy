/** Days by number, as `date.toordinal` counts them. */
module Days {

  /** Monday is 0; day 1 was a Monday. */
  function Weekday(day: int): int { (day + 6) % 7 }
}
