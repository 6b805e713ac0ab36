/** `boardPassengers` as the Java source computes it, in 32-bit `int`
    arithmetic. The capacity guard adds the count to the current passengers
    before comparing, so a count near `Integer.MAX_VALUE` wraps the sum
    negative, passes the guard, and leaves a negative passenger count.
    `Vehicles.Board` is the corrected operation the rest of the model uses. */
module BoardingOverflow {
  import opened Errors
  import opened Vehicles
  import opened Numbers

  /** Two's-complement wrap-around of Java `int` addition results. */
  function Wrap32(x: int): (r: int)
    ensures IsInt32(r)
    ensures IsInt32(x) ==> r == x
    ensures (x - r) % 0x1_0000_0000 == 0
  {
    (x + 0x8000_0000) % 0x1_0000_0000 - 0x8000_0000
  }

  /** `boardPassengers(count)` of the car and the bus, guard and update in
      `int` arithmetic. */
  function BoardAsWritten(v: Vehicle, n: int): (r: Result<Vehicle>)
    requires Has(v, PassengerCarrier)
    requires IsInt32(n) && IsInt32(Passengers(v))
    ensures IsInt32(Passengers(v) + n) ==> r == Board(v, n)
    ensures r.Success? ==> Passengers(r.value) == Wrap32(Passengers(v) + n)
  {
    if n <= 0 then Failure(InvalidOperation)
    else if Wrap32(Passengers(v) + n) > SeatCount(v) then Failure(Overload)
    else Success(SetPassengers(v, Wrap32(Passengers(v) + n)))
  }

  /** From any reachable state, the source and the corrected operation
      disagree exactly when the sum overflows `int`; then the source accepts
      the count and breaks the seat invariant. */
  lemma AsWrittenDiffersExactlyOnOverflow(v: Vehicle, n: int)
    requires Has(v, PassengerCarrier) && Valid(v) && IsInt32(n)
    ensures BoardAsWritten(v, n) != Board(v, n) <==> Passengers(v) + n > IntMax
    ensures Passengers(v) + n > IntMax ==>
              BoardAsWritten(v, n).Success? && !Valid(BoardAsWritten(v, n).value)
              && Board(v, n) == Failure(Overload)
  {
    if Passengers(v) + n > IntMax {
      assert Wrap32(Passengers(v) + n) == Passengers(v) + n - 0x1_0000_0000;
    }
  }

  /** A car with one passenger accepts `Integer.MAX_VALUE` more and ends
      with a negative passenger count. */
  lemma CarBoardOverflow()
    ensures var car := Vehicle("C1", "Civic", 180.0, 0.0, 0.0, false, Car(4, 1));
            && Valid(car)
            && BoardAsWritten(car, IntMax).Success?
            && Passengers(BoardAsWritten(car, IntMax).value) == IntMin
            && Board(car, IntMax) == Failure(Overload)
  {
  }

  /** The same for a bus with one passenger. */
  lemma BusBoardOverflow()
    ensures var bus := Vehicle("B1", "Citaro", 100.0, 0.0, 0.0, false, Bus(6, 1, 0.0));
            && Valid(bus)
            && BoardAsWritten(bus, IntMax).Success?
            && Passengers(BoardAsWritten(bus, IntMax).value) == IntMin
            && Board(bus, IntMax) == Failure(Overload)
  {
  }
}
