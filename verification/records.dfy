/** Field reads on the application's records that both the API routes and the client hooks perform. */
module Records {
  import opened Wrappers
  import opened Js

  /** `user.suscripcionActiva` is truthy. */
  predicate ActiveSubscription(u: Json) {
    Truthy(Get(Some(u), "suscripcionActiva"))
  }
}
