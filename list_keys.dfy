/** The inactive-holders list of packages/cli/src/commands/list-keys.tsx:
    of the users whose keys the wallet holds, those last online before the
    cutoff, oldest first, one CSV line each. The users `getUser` returned
    (`None` where it failed), the clock and the contract's `sharesBalance`
    are parameters. */
module ListKeys {
  import opened Common
  import opened BuyHelpers

  const MillisecondsPerDay := 24 * 60 * 60 * 1000

  /** The header columns. */
  const InactiveColumns: seq<string> := ["address", "quantity", "price", "twitterUsername", "twitterName", "ts", "lastOnline"]

  /** The time `inactiveDays` days before `now`, in milliseconds. */
  function InactiveCutoff(now: int, inactiveDays: int): int
  {
    now - inactiveDays * MillisecondsPerDay
  }

  /** Being last online before the cutoff means having been offline for more
      than `inactiveDays` whole days. */
  lemma CutoffMeansInactive(now: int, inactiveDays: int, lastOnline: int)
    ensures lastOnline < InactiveCutoff(now, inactiveDays) <==> now - lastOnline > inactiveDays * 86400000
  {
  }

  /** The filter of the `for … of detailedUsers` loop. */
  predicate IsInactive(u: FormattedUser, cutoff: int)
  {
    u.lastOnline > 0 && u.lastOnline < cutoff
  }

  /** The users the loop pushes, in the order `getUser` returned them. */
  function InactiveUsers(detailed: seq<Option<FormattedUser>>, cutoff: int): (r: seq<FormattedUser>)
    ensures |r| <= |detailed|
  {
    if detailed == [] then []
    else
      var p := InactiveUsers(detailed[..|detailed| - 1], cutoff);
      var d := detailed[|detailed| - 1];
      if d.Some? && IsInactive(d.value, cutoff) then p + [d.value] else p
  }

  /** A user is listed exactly when it was fetched, has a positive
      `lastOnline`, and was last online before the cutoff. */
  lemma {:induction false} InactiveMembers(detailed: seq<Option<FormattedUser>>, cutoff: int, u: FormattedUser)
    ensures u in InactiveUsers(detailed, cutoff) <==> Some(u) in detailed && u.lastOnline > 0 && u.lastOnline < cutoff
  {
    if detailed != [] {
      var pre := detailed[..|detailed| - 1];
      InactiveMembers(pre, cutoff, u);
      assert detailed == pre + [detailed[|detailed| - 1]];
    }
  }

  function LastOnline(u: FormattedUser): int
  {
    u.lastOnline
  }

  // ---------------------------------------------------------------------
  // CSV rows

  /** What a CSV cell holds; `RelativeTimeCell(d)` is the relative-time text
      for `d` milliseconds from now, whose wording is not modelled. */
  datatype Cell =
    | AddressCell(address: string)
    | QuantityCell(quantity: int)
    | PriceCell(price: real)
    | UsernameCell(username: string)
    | NameCell(name: string)
    | LastOnlineCell(timestamp: int)
    | RelativeTimeCell(milliseconds: int)

  /** The header column each kind of cell belongs under; `ts` is the name
      the command gives to the relative time of each user. */
  function ColumnOf(c: Cell): string
  {
    match c
    case AddressCell(_) => "address"
    case QuantityCell(_) => "quantity"
    case PriceCell(_) => "price"
    case UsernameCell(_) => "twitterUsername"
    case NameCell(_) => "twitterName"
    case RelativeTimeCell(_) => "ts"
    case LastOnlineCell(_) => "lastOnline"
  }

  /** Whether every cell of `row` sits under its own header column. */
  predicate MatchesHeader(row: seq<Cell>)
  {
    |row| == |InactiveColumns| && forall i :: 0 <= i < |row| ==> ColumnOf(row[i]) == InactiveColumns[i]
  }

  /** The line as the command writes it: the timestamp under `ts` and the
      relative time under `lastOnline`. */
  function RowAsWritten(u: FormattedUser, ownKeys: int, now: int): (row: seq<Cell>)
    ensures var corrected := InactiveRow(u, ownKeys, now);
            && |row| == |corrected|
            && row[..5] == corrected[..5]
            && row[5] == corrected[6] && row[6] == corrected[5]
  {
    [AddressCell(u.address), QuantityCell(ownKeys), PriceCell(u.keyPriceInEth), UsernameCell(u.twitterUsername),
     NameCell(u.twitterName), LastOnlineCell(u.lastOnline), RelativeTimeCell(u.lastOnline - now)]
  }

  /** Whatever the user, the line as written puts its last two cells under
      each other's columns. */
  lemma RowAsWrittenSwapsTimeColumns(u: FormattedUser, ownKeys: int, now: int)
    ensures var row := RowAsWritten(u, ownKeys, now);
            ColumnOf(row[5]) == InactiveColumns[6] && ColumnOf(row[6]) == InactiveColumns[5]
            && !MatchesHeader(row)
  {
    var row := RowAsWritten(u, ownKeys, now);
    assert ColumnOf(row[5]) != InactiveColumns[5];
  }

  /** The line of one user, each cell under its column, with the
      number of keys the wallet holds. */
  function InactiveRow(u: FormattedUser, ownKeys: int, now: int): (row: seq<Cell>)
    ensures MatchesHeader(row)
    ensures row[0] == AddressCell(u.address) && row[1] == QuantityCell(ownKeys)
    ensures row[5] == RelativeTimeCell(u.lastOnline - now) && row[6] == LastOnlineCell(u.lastOnline)
  {
    [AddressCell(u.address), QuantityCell(ownKeys), PriceCell(u.keyPriceInEth), UsernameCell(u.twitterUsername),
     NameCell(u.twitterName), RelativeTimeCell(u.lastOnline - now), LastOnlineCell(u.lastOnline)]
  }

  // ---------------------------------------------------------------------
  // The command

  /** The `for … of detailedUsers` loop. */
  method CollectInactive(detailed: seq<Option<FormattedUser>>, inactiveTs: int) returns (inactiveUsers: seq<FormattedUser>)
    ensures inactiveUsers == InactiveUsers(detailed, inactiveTs)
  {
    inactiveUsers := [];
    for i := 0 to |detailed|
      invariant inactiveUsers == InactiveUsers(detailed[..i], inactiveTs)
    {
      assert detailed[..i + 1][..i] == detailed[..i];
      var d := detailed[i];
      if d.Some? && d.value.lastOnline > 0 && d.value.lastOnline < inactiveTs {
        inactiveUsers := inactiveUsers + [d.value];
      }
    }
    assert detailed[..|detailed|] == detailed;
  }

  /** Which line each user gets: the one the command writes, or the
      corrected one with every cell under its column. */
  datatype Layout = AsWritten | Corrected

  function LineOf(layout: Layout, u: FormattedUser, ownKeys: int, now: int): seq<Cell>
  {
    match layout
    case AsWritten => RowAsWritten(u, ownKeys, now)
    case Corrected => InactiveRow(u, ownKeys, now)
  }

  /** The `for … of sortedInactiveUsers` loop: the header, then one line per
      user in order, with the wallet's balance of that user's keys. */
  method WriteLines(sorted: seq<FormattedUser>, now: int, sharesBalance: string -> int, layout: Layout)
    returns (csvData: seq<CsvLine<seq<Cell>>>)
    ensures |csvData| == |sorted| + 1 && csvData[0] == HeaderLine(InactiveColumns)
    ensures forall i :: 0 <= i < |sorted| ==>
              csvData[i + 1] == DataLine(LineOf(layout, sorted[i], sharesBalance(sorted[i].address), now))
  {
    csvData := [HeaderLine(InactiveColumns)];
    for i := 0 to |sorted|
      invariant |csvData| == i + 1 && csvData[0] == HeaderLine(InactiveColumns)
      invariant forall k :: 0 <= k < i ==>
                  csvData[k + 1] == DataLine(LineOf(layout, sorted[k], sharesBalance(sorted[k].address), now))
    {
      var user := sorted[i];
      var ownKeys := sharesBalance(user.address);
      csvData := csvData + [DataLine(LineOf(layout, user, ownKeys, now))];
    }
  }

  /** The `getInactiveUsers` step as written: filter, sort by `lastOnline`,
      and write the header and one line per user, with the timestamp before
      the relative time. The count excludes the header. */
  method ListInactiveUsersAsWritten(detailed: seq<Option<FormattedUser>>, now: int, inactiveDays: int,
                                    sharesBalance: string -> int)
    returns (csvData: seq<CsvLine<seq<Cell>>>, filteredUsersNum: int)
    ensures var sorted := SortBy(InactiveUsers(detailed, InactiveCutoff(now, inactiveDays)), LastOnline);
            && |csvData| == |sorted| + 1
            && csvData[0] == HeaderLine(InactiveColumns)
            && (forall i :: 0 <= i < |sorted| ==>
                  csvData[i + 1] == DataLine(RowAsWritten(sorted[i], sharesBalance(sorted[i].address), now)))
            && (forall i :: 1 <= i < |csvData| ==> csvData[i].DataLine? && !MatchesHeader(csvData[i].row))
            && filteredUsersNum == |sorted|
  {
    var inactiveTs := InactiveCutoff(now, inactiveDays);
    var inactiveUsers := CollectInactive(detailed, inactiveTs);
    var sorted := SortBy(inactiveUsers, LastOnline);
    csvData := WriteLines(sorted, now, sharesBalance, AsWritten);
    filteredUsersNum := |csvData| - 1;
    forall i | 1 <= i < |csvData|
      ensures csvData[i].DataLine? && !MatchesHeader(csvData[i].row)
    {
      RowAsWrittenSwapsTimeColumns(sorted[i - 1], sharesBalance(sorted[i - 1].address), now);
    }
  }

  /** The same step with the corrected line: every cell of every line sits
      under its header column. */
  method ListInactiveUsers(detailed: seq<Option<FormattedUser>>, now: int, inactiveDays: int,
                           sharesBalance: string -> int)
    returns (csvData: seq<CsvLine<seq<Cell>>>, filteredUsersNum: int)
    ensures var sorted := SortBy(InactiveUsers(detailed, InactiveCutoff(now, inactiveDays)), LastOnline);
            && |csvData| == |sorted| + 1
            && csvData[0] == HeaderLine(InactiveColumns)
            && (forall i :: 0 <= i < |sorted| ==>
                  csvData[i + 1] == DataLine(InactiveRow(sorted[i], sharesBalance(sorted[i].address), now)))
            && (forall i :: 1 <= i < |csvData| ==> csvData[i].DataLine? && MatchesHeader(csvData[i].row))
            && filteredUsersNum == |sorted|
  {
    var inactiveTs := InactiveCutoff(now, inactiveDays);
    var inactiveUsers := CollectInactive(detailed, inactiveTs);
    var sorted := SortBy(inactiveUsers, LastOnline);
    csvData := WriteLines(sorted, now, sharesBalance, Corrected);
    filteredUsersNum := |csvData| - 1;
    forall i | 1 <= i < |csvData|
      ensures csvData[i].DataLine? && MatchesHeader(csvData[i].row)
    {
      assert csvData[i] == DataLine(InactiveRow(sorted[i - 1], sharesBalance(sorted[i - 1].address), now));
    }
  }

  /** The lines after the header list each inactive user exactly as often
      as the filter kept it, oldest `lastOnline` first. */
  lemma ListedUsersAreSortedInactive(detailed: seq<Option<FormattedUser>>, now: int, inactiveDays: int)
    ensures var cutoff := InactiveCutoff(now, inactiveDays);
            var sorted := SortBy(InactiveUsers(detailed, cutoff), LastOnline);
            && (forall i, j :: 0 <= i < j < |sorted| ==> sorted[i].lastOnline <= sorted[j].lastOnline)
            && multiset(sorted) == multiset(InactiveUsers(detailed, cutoff))
            && (forall u :: u in sorted <==> Some(u) in detailed && u.lastOnline > 0 && u.lastOnline < cutoff)
  {
    var cutoff := InactiveCutoff(now, inactiveDays);
    var sorted := SortBy(InactiveUsers(detailed, cutoff), LastOnline);
    forall u ensures u in sorted <==> Some(u) in detailed && u.lastOnline > 0 && u.lastOnline < cutoff {
      InactiveMembers(detailed, cutoff, u);
      assert u in sorted <==> u in multiset(sorted);
    }
    forall i, j | 0 <= i < j < |sorted| ensures sorted[i].lastOnline <= sorted[j].lastOnline {
      assert LastOnline(sorted[i]) <= LastOnline(sorted[j]);
    }
  }
}
