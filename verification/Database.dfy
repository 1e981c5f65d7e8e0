// The database as a transaction meets it.
module Database {

  // What happens to one attempt: nothing, a lock conflict that is worth a retry, any
  // other error, or a commit that took effect although its reply was lost.
  datatype Fault = NoFault | Transient | Permanent | LostReply

  // Whether the attempt's writes reach the tables.
  predicate TakesEffect(f: Fault) {
    f == NoFault || f == LostReply
  }
}
