/** The watcher fields that the loop keeps (ev.h:185-246). */
module Watchers {
  import opened Wrappers

  class Watcher {
    var active: int       // 0, or where the loop keeps the watcher
    var pending: nat      // 0, or the slot of its pending queue plus 1
    var priority: int
    var fd: nat                                 // io watchers
    var events: bv8
    var at: real                                // timers and periodics
    var repeat: real                            // timers
    var offset: real                            // periodics
    var interval: real
    var rescheduleCb: Option<real -> real>

    constructor ()
      ensures active == 0 && pending == 0 && priority == 0
      ensures fd == 0 && events == 0
      ensures at == 0.0 && repeat == 0.0 && offset == 0.0 && interval == 0.0 && rescheduleCb == None
    {
      active, pending, priority, fd, events := 0, 0, 0, 0, 0;
      at, repeat, offset, interval, rescheduleCb := 0.0, 0.0, 0.0, 0.0, None;
    }
  }
}
