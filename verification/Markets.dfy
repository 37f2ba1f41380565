/** The enumerations of a prediction market that several components share. */
module Markets {

  /** The status of a prediction set. */
  datatype SetStatus = Initialized | Pending | Funding | Active | Voting | Finalized | Error

  /** The kind of an outcome share transaction. */
  datatype ShareType = Buy | Sell | Fund
}
