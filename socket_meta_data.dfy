/** SocketMetaData of sniffy-core: the key under which a Spy groups socket
    operations and captured network traffic. The JVM facilities its
    constructor relies on (the string pool behind String.intern and the hash
    codes of the address, of a string's identity and of the thread metadata)
    are supplied as an environment. */
module SocketMeta {
  import opened Wrappers
  import opened JavaText

  /** An InetSocketAddress of a resolved host: the host name and the textual
      address of its InetAddress, and the port. */
  datatype Address = Address(hostName: string, hostAddress: string, port: int)

  /** InetSocketAddress.equals on resolved addresses: the IP address and the
      port; the host name the address was looked up by does not take part. */
  predicate SameAddress(a: Address, b: Address) {
    a.hostAddress == b.hostAddress && a.port == b.port
  }

  /** ThreadMetaData: the owning thread's id and name. */
  datatype ThreadMetaData = ThreadMetaData(threadId: int, threadName: string)

  /** A reference to a java.lang.String: where the object lives and what it
      says. Java's `==` on strings compares `location`. */
  datatype StringRef = StringRef(location: nat, text: string)

  /** The JVM facilities the constructor and hashCode use. */
  datatype Env = Env(
    pool: string -> nat,                 // where String.intern keeps the canonical copy of a text
    addressHash: Address -> Int32,       // InetSocketAddress.hashCode
    identityHash: nat -> Int32,          // System.identityHashCode of the object at a location
    threadHash: ThreadMetaData -> Int32) // ThreadMetaData.hashCode

  /** The pool keeps one canonical copy per text. */
  ghost predicate PoolIsInjective(env: Env) {
    forall a, b :: env.pool(a) == env.pool(b) ==> a == b
  }

  /** InetSocketAddress's hash agrees with its equals. */
  ghost predicate AddressHashByEndpoint(env: Env) {
    forall a: Address, b: Address :: SameAddress(a, b) ==> env.addressHash(a) == env.addressHash(b)
  }

  /** ThreadMetaData's hash agrees with the thread id, the only part that
      SocketMetaData.equals compares. */
  ghost predicate ThreadHashByThreadId(env: Env) {
    forall t: ThreadMetaData, u: ThreadMetaData :: t.threadId == u.threadId ==> env.threadHash(t) == env.threadHash(u)
  }

  /** String.intern: the canonical copy of the same text. */
  function Intern(env: Env, s: StringRef): (r: StringRef)
    ensures r.text == s.text && r.location == env.pool(s.text)
  {
    StringRef(env.pool(s.text), s.text)
  }

  datatype SocketMetaData = SocketMetaData(
    protocol: Option<string>,               // recorded by the Spy's version of the class, never compared
    address: Address,
    connectionId: Int32,
    stackTrace: Option<StringRef>,
    threadMetaData: Option<ThreadMetaData>, // absent only in the Spy's regrouped copies
    ownerThreadId: Option<int>,
    hashCode: Int32)

  /** System.identityHashCode, which is 0 for null. */
  function IdentityHash(env: Env, s: Option<StringRef>): Int32 {
    if s.Some? then env.identityHash(s.value.location) else 0
  }

  function ThreadHash(env: Env, t: Option<ThreadMetaData>): Int32 {
    if t.Some? then env.threadHash(t.value) else 0
  }

  /** computeHashCode, in int arithmetic. */
  function ComputeHashCode(env: Env, address: Address, connectionId: Int32, stackTrace: Option<StringRef>,
                           threadMetaData: Option<ThreadMetaData>): Int32
  {
    var result := env.addressHash(address);
    var result := Wrap32(31 * result + connectionId);
    var result := Wrap32(31 * result + IdentityHash(env, stackTrace));
    Wrap32(31 * result + ThreadHash(env, threadMetaData))
  }

  /** The constructor: the stack trace is interned (null stays null), the
      owner thread id is copied from the thread metadata, and the hash code is
      computed once. */
  function New(env: Env, protocol: Option<string>, address: Address, connectionId: Int32,
               stackTrace: Option<StringRef>, threadMetaData: Option<ThreadMetaData>): (m: SocketMetaData)
    ensures m.protocol == protocol && m.address == address && m.connectionId == connectionId
    ensures m.threadMetaData == threadMetaData
    ensures m.stackTrace.None? <==> stackTrace.None?
    ensures stackTrace.Some? ==>
      m.stackTrace.value.text == stackTrace.value.text && m.stackTrace.value.location == env.pool(stackTrace.value.text)
    ensures m.ownerThreadId.Some? <==> threadMetaData.Some?
    ensures threadMetaData.Some? ==> m.ownerThreadId.value == threadMetaData.value.threadId
  {
    var interned := if stackTrace.Some? then Some(Intern(env, stackTrace.value)) else None;
    var owner := if threadMetaData.Some? then Some(threadMetaData.value.threadId) else None;
    SocketMetaData(protocol, address, connectionId, interned, threadMetaData, owner,
      ComputeHashCode(env, address, connectionId, interned, threadMetaData))
  }

  /** hashCode: the value cached by the constructor. */
  function HashCode(m: SocketMetaData): Int32 {
    m.hashCode
  }

  /** The argument of equals: null, a SocketMetaData, or an object of another class. */
  datatype Object = Null | Socket(socket: SocketMetaData) | OtherObject

  function ThreadId(m: SocketMetaData): Option<int> {
    if m.threadMetaData.Some? then Some(m.threadMetaData.value.threadId) else None
  }

  /** Java's `==` on two possibly-null string references. */
  predicate SameRef(a: Option<StringRef>, b: Option<StringRef>) {
    (a.None? && b.None?) || (a.Some? && b.Some? && a.value.location == b.value.location)
  }

  /** equals. The `this == o` short cut needs no case of its own: identical
      objects pass every later test. */
  predicate Equals(m: SocketMetaData, o: Object) {
    match o
    case Null => false
    case OtherObject => false
    case Socket(that) =>
      m.connectionId == that.connectionId && ThreadId(m) == ThreadId(that) &&
      SameAddress(m.address, that.address) && SameRef(m.stackTrace, that.stackTrace)
  }

  /** What equals looks at, as one value: a map keyed by SocketMetaData finds
      an entry exactly when these agree. */
  function Identity(m: SocketMetaData): (int, Option<int>, (string, int), Option<nat>) {
    (m.connectionId, ThreadId(m), (m.address.hostAddress, m.address.port),
     if m.stackTrace.Some? then Some(m.stackTrace.value.location) else None)
  }

  lemma EqualsIsIdentity(m: SocketMetaData, that: SocketMetaData)
    ensures Equals(m, Socket(that)) <==> Identity(m) == Identity(that)
  {
  }

  /** equals is reflexive, symmetric and transitive, and false for null and
      for objects of other classes. */
  lemma EqualsIsEquivalence(a: SocketMetaData, b: SocketMetaData, c: SocketMetaData)
    ensures Equals(a, Socket(a))
    ensures Equals(a, Socket(b)) ==> Equals(b, Socket(a))
    ensures Equals(a, Socket(b)) && Equals(b, Socket(c)) ==> Equals(a, Socket(c))
    ensures !Equals(a, Null) && !Equals(a, OtherObject)
  {
  }

  /** Because the constructor interns the stack trace, the reference
      comparison in equals is a comparison of the texts. */
  lemma InternedComparesText(env: Env, p1: Option<string>, a1: Address, c1: Int32, s1: Option<StringRef>, t1: Option<ThreadMetaData>,
                                       p2: Option<string>, a2: Address, c2: Int32, s2: Option<StringRef>, t2: Option<ThreadMetaData>)
    requires PoolIsInjective(env)
    ensures Equals(New(env, p1, a1, c1, s1, t1), Socket(New(env, p2, a2, c2, s2, t2))) <==>
      c1 == c2 && SameAddress(a1, a2) &&
      (if t1.Some? then Some(t1.value.threadId) else None) == (if t2.Some? then Some(t2.value.threadId) else None) &&
      (if s1.Some? then Some(s1.value.text) else None) == (if s2.Some? then Some(s2.value.text) else None)
  {
    if s1.Some? && s2.Some? && env.pool(s1.value.text) == env.pool(s2.value.text) {
      assert s1.value.text == s2.value.text;
    }
  }

  /** equals and hashCode agree: equal instances built by the constructor
      have the same hash code, when the hashes of InetSocketAddress and of
      ThreadMetaData follow their own equals. */
  lemma EqualsImpliesSameHash(env: Env, p1: Option<string>, a1: Address, c1: Int32, s1: Option<StringRef>, t1: Option<ThreadMetaData>,
                                        p2: Option<string>, a2: Address, c2: Int32, s2: Option<StringRef>, t2: Option<ThreadMetaData>)
    requires AddressHashByEndpoint(env) && ThreadHashByThreadId(env)
    requires Equals(New(env, p1, a1, c1, s1, t1), Socket(New(env, p2, a2, c2, s2, t2)))
    ensures HashCode(New(env, p1, a1, c1, s1, t1)) == HashCode(New(env, p2, a2, c2, s2, t2))
  {
    var m1, m2 := New(env, p1, a1, c1, s1, t1), New(env, p2, a2, c2, s2, t2);
    assert IdentityHash(env, m1.stackTrace) == IdentityHash(env, m2.stackTrace);
    assert env.addressHash(a1) == env.addressHash(a2);
    if t1.Some? {
      assert env.threadHash(t1.value) == env.threadHash(t2.value);
    }
  }

  /** Two connections to the same IP address and port, one looked up by name
      and one by its textual address, are equal keys; a different port makes
      them different. */
  lemma HostNameIgnored(env: Env, c: Int32, t: Option<ThreadMetaData>, port: int)
    requires 0 <= port < 65535
    ensures var byName := New(env, None, Address("localhost", "127.0.0.1", port), c, None, t);
      Equals(byName, Socket(New(env, None, Address("127.0.0.1", "127.0.0.1", port), c, None, t))) &&
      !Equals(byName, Socket(New(env, None, Address("127.0.0.1", "127.0.0.1", port + 1), c, None, t)))
  {
  }
}
