/** What a callback of the QUIC library reports about a stream or its connection. */
module Callbacks {

  datatype CallbackEvent = NoEvent | StreamFin | StreamReset | StopSending | Close | ApplicationClose
}
