/** Values shared by every part of the model: URLs, optional values and the
    errors the API surfaces to its callers. */
module Base {

  /** Archive and record identities are URL strings. */
  type Url = string

  datatype Option<+T> = None | Some(value: T)

  /** The errors the modelled operations raise. */
  datatype Error =
    | FollowWithoutProfile    // 'Failed to follow: no profile record exists. ...'
    | UnfollowWithoutProfile  // 'Failed to unfollow: no profile record exists. ...'
    | ProfileMissing          // a read of `.followUrls` on a profile the store does not hold
    | SubjectRequired         // 'Subject is required'
    | SubjectUnresolved       // a vote subject that resolves to no URL
    | CollectionUndefined     // a query call on a collection the schema does not declare

  /** The outcome of an operation that either returns a value or throws. */
  datatype Result<+T> = Ok(value: T) | Err(error: Error)

  /** The outcome of an operation that returns nothing or throws. */
  datatype Outcome = Done | Failed(error: Error)
}
