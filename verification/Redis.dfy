/** The part of Redis the limiter relies on: string keys holding an integer,
    each with the instant at which it expires.  Every function below is one
    command, hence one atomic step.  The clock ticks in whole seconds, and a key
    is present until, and not at, the tick it expires on. */
module Redis {

  type Ip = string

  datatype Key =
    | Jailed(ip: Ip)
    | Trusted(ip: Ip)
    | History(ip: Ip)
    | Counter(ip: Ip)

  datatype Entry = Entry(value: int, expireAt: int)

  type Store = map<Key, Entry>

  predicate Live(s: Store, k: Key, now: int) {
    k in s && now < s[k].expireAt
  }

  /** The reply of GET, with a missing key read as zero. */
  function Value(s: Store, k: Key, now: int): int {
    if Live(s, k, now) then s[k].value else 0
  }

  /** The reply of TTL, with the negative replies folded to zero. */
  function TtlReply(s: Store, k: Key, now: int): int {
    if Live(s, k, now) then s[k].expireAt - now else 0
  }

  function Set(s: Store, k: Key, v: int, now: int, ttl: int): Store {
    s[k := Entry(v, now + ttl)]
  }

  function SetNx(s: Store, k: Key, v: int, now: int, ttl: int): Store {
    if Live(s, k, now) then s else Set(s, k, v, now, ttl)
  }

  function Del(s: Store, k: Key): Store {
    s - {k}
  }

  /** GETEX: read and, when the key is there, restart its lifetime. */
  function GetEx(s: Store, k: Key, now: int, ttl: int): Store {
    if Live(s, k, now) then s[k := Entry(s[k].value, now + ttl)] else s
  }

  /** The script both counters use: INCR, and EXPIRE when the reply is 1. */
  function IncrExpire(s: Store, k: Key, now: int, ttl: int): Store {
    var count := Value(s, k, now) + 1;
    if count == 1 then s[k := Entry(1, now + ttl)] else s[k := Entry(count, s[k].expireAt)]
  }
}
