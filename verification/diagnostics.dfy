/** The categories of the messages eis writes with `console.error` and
    `console.warn`; the message text is not modelled. */
module Diagnostics {
  import opened Values

  datatype Diag =
    | InitError                 // eis.js:3, construction without a value
    | FreezeTypeError           // eis.js:12, `_freeze` called on a non-object
    | CloneError                // eis.js:35-40, `JSON.stringify` threw
    | SetError                  // eis.js:63-65 and eis.js:88
    | NoOpUndefinedResult       // eis.js:74, the updater returned undefined
    | NoOpSameReference         // eis.js:79-81, `Object.is(state, next)`
    | ListenerError(l: ListenerId)  // eis.js:56, a listener threw an error
    | SubscribeError            // eis.js:105-107
}
