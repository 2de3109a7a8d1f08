/** What the discovery core takes from its surroundings: the codec, the
    calendar, the random generator and the host name. */
module Platform {
  import opened Errors
  import opened GoLib
  import opened Security

  /** `dateAt(o)` is the calendar date of the current instant in a zone `o`
      seconds east of UTC (time.Now().In(time.FixedZone(..., o))); `prng(v)`
      is the first rand.Int() after rand.Seed(v); `hostname` is what
      os.Hostname returns. */
  datatype Env = Env(codec: Codec, dateAt: int -> Date, prng: int -> nat, hostname: Result<Bytes>)

  /** The token a fresh Security (empty label, offset 0) generates. */
  function DayToken(env: Env): (r: Result<Bytes>)
    ensures r.Ok? ==> r.value != [] && AllDigits(r.value)
    ensures r.Err? <==> Seed(env.dateAt(0)).Err?
  {
    Token(env.prng, env.dateAt(0))
  }

  /** `s := new(security.Security); s.GenerateDiscoReqToken()`: the token of
      a fresh Security, which is the day's token in UTC. */
  method NewDayToken(env: Env) returns (r: Result<Bytes>)
    ensures r == DayToken(env)
  {
    var s := new Security();
    r := s.GenerateDiscoReqToken(env.dateAt, env.prng);
  }
}
