/** The user table: a fixed list of users, a checkbox selection with a
    select-all button, and a per-user e-mail button that stays disabled
    while its status is 'sent'. */
module UserManagementsPage {
  import opened Lists

  datatype User = User(id: nat, email: string, date: string)

  /** The users the page lists. */
  const DemoUsers: seq<User> := [
    User(1, "ahmadnkw1@hotmail.com", "10/2/2024"),
    User(2, "user2@example.com", "11/2/2024"),
    User(3, "user3@example.com", "12/2/2024")
  ]

  /** `users.map(user => user.id)`. */
  function UserIds(users: seq<User>): (r: seq<nat>)
    ensures |r| == |users|
    ensures forall k :: 0 <= k < |users| ==> r[k] == users[k].id
  {
    seq(|users|, k requires 0 <= k < |users| => users[k].id)
  }

  /** The values of a list, as a set. */
  function Elements(s: seq<nat>): set<nat>
  {
    set x | x in s
  }

  /** A list without duplicates has as many distinct values as entries. */
  lemma {:induction false} ElementsOfDistinct(s: seq<nat>)
    requires NoDuplicates(s)
    ensures |Elements(s)| == |s|
    decreases |s|
  {
    if |s| > 0 {
      var rest := s[1..];
      assert NoDuplicates(rest) by {
        forall i, j | 0 <= i < j < |rest| ensures rest[i] != rest[j] {
          assert rest[i] == s[i + 1] && rest[j] == s[j + 1];
        }
      }
      ElementsOfDistinct(rest);
      assert Elements(s) == Elements(rest) + {s[0]};
      assert s[0] !in Elements(rest) by {
        forall k | 0 <= k < |rest| ensures rest[k] != s[0] {
          assert rest[k] == s[k + 1];
        }
      }
    }
  }

  /** A set inside another has no more elements. */
  lemma {:induction false} SubsetSize(a: set<nat>, b: set<nat>)
    requires a <= b
    ensures |a| <= |b|
    ensures |a| == |b| ==> a == b
    decreases |a|
  {
    if a != {} {
      var x :| x in a;
      SubsetSize(a - {x}, b - {x});
      assert a == (a - {x}) + {x} && b == (b - {x}) + {x};
    } else if |b| == 0 {
      assert b == {};
    }
  }

  /** The selection is well formed: no id twice, every id a user's, and
      the users' own ids distinct. */
  predicate WellFormedSelection(users: seq<User>, selected: seq<nat>)
  {
    NoDuplicates(UserIds(users)) && NoDuplicates(selected) && forall k :: 0 <= k < |selected| ==> selected[k] in UserIds(users)
  }

  /** In a well-formed selection, counting as many entries as there are
      users means every user is selected, and conversely: the count test
      of the select-all button is a test for "everyone is selected". */
  lemma SelectionFull(users: seq<User>, selected: seq<nat>)
    requires WellFormedSelection(users, selected)
    ensures |selected| == |users| <==> forall k :: 0 <= k < |users| ==> users[k].id in selected
  {
    var ids := UserIds(users);
    ElementsOfDistinct(ids);
    ElementsOfDistinct(selected);
    assert Elements(selected) <= Elements(ids);
    SubsetSize(Elements(selected), Elements(ids));
    if forall k :: 0 <= k < |users| ==> users[k].id in selected {
      assert Elements(ids) <= Elements(selected);
      SubsetSize(Elements(ids), Elements(selected));
    }
    if |selected| == |users| {
      forall k | 0 <= k < |users| ensures users[k].id in selected {
        assert ids[k] in Elements(ids);
      }
    }
  }

  datatype EmailStatus = Sent | Default

  /** The page's state. */
  class UserTable {
    const users: seq<User>
    var selectedUsers: seq<nat>
    var emailStatus: map<nat, EmailStatus>

    /** Nobody selected and no status recorded. */
    constructor(users: seq<User>)
      ensures this.users == users && selectedUsers == [] && emailStatus == map[]
    {
      this.users := users;
      selectedUsers := [];
      emailStatus := map[];
    }

    predicate Valid()
      reads this
    {
      WellFormedSelection(users, selectedUsers)
    }

    /** `handleCheckboxChange`: the user's id is dropped from the selection
        when present and appended otherwise; a listed user's toggle keeps the
        selection well formed. */
    method CheckboxChange(user: User)
      modifies this`selectedUsers
      ensures selectedUsers == Toggle(old(selectedUsers), user.id)
      ensures old(Valid()) && user in users ==> Valid()
    {
      if old(Valid()) {
        ToggleNoDuplicates(selectedUsers, user.id);
      }
      selectedUsers := Toggle(selectedUsers, user.id);
    }

    /** `handleSelectAll`: a selection as long as the user list is
        cleared; any other becomes every id, in user order. */
    method SelectAll()
      modifies this`selectedUsers
      ensures |old(selectedUsers)| == |users| ==> selectedUsers == []
      ensures |old(selectedUsers)| != |users| ==> selectedUsers == UserIds(users) && SelectedDetails() == users
      ensures old(Valid()) ==> Valid()
    {
      if |selectedUsers| == |users| {
        selectedUsers := [];
      } else {
        var ids := UserIds(users);
        selectedUsers := ids;
        FilterKeepsAll(users, (u: User) => u.id in ids);
      }
    }

    /** The select-all button's label. */
    function SelectAllLabel(): (caption: string)
      reads this
      ensures caption == "Deselect All" || caption == "Select All"
      ensures Valid() ==> (caption == "Deselect All" <==> forall k :: 0 <= k < |users| ==> users[k].id in selectedUsers)
    {
      var c := if |selectedUsers| == |users| then "Deselect All" else "Select All";
      if Valid() then SelectionFull(users, selectedUsers); c else c
    }

    /** `selectedUserDetails` of `handleSendEmailToSelected`: exactly the
        selected users, in the order of the user list. */
    function SelectedDetails(): (r: seq<User>)
      reads this
      ensures IsSubsequence(r, users)
      ensures forall k :: 0 <= k < |r| ==> r[k].id in selectedUsers
      ensures forall k :: 0 <= k < |users| && users[k].id in selectedUsers ==> users[k] in r
    {
      var selected := selectedUsers;
      Filter(users, (u: User) => u.id in selected)
    }

    /** The e-mail button of `id` is disabled while its status is 'sent'. */
    function SendDisabled(id: nat): bool
      reads this
    {
      id in emailStatus && emailStatus[id] == Sent
    }

    /** `handleSendEmail`'s first update: only that user is marked 'sent',
        which disables its button. */
    method SendEmail(id: nat)
      modifies this`emailStatus
      ensures emailStatus == old(emailStatus)[id := Sent]
      ensures SendDisabled(id)
      ensures forall other :: other != id ==> SendDisabled(other) == old(SendDisabled(other))
    {
      emailStatus := emailStatus[id := Sent];
    }

    /** The timer's update five seconds later: the user's status goes back
        to 'default' and the button is enabled again. */
    method ResetEmailStatus(id: nat)
      modifies this`emailStatus
      ensures emailStatus == old(emailStatus)[id := Default]
      ensures !SendDisabled(id)
      ensures forall other :: other != id ==> SendDisabled(other) == old(SendDisabled(other))
    {
      emailStatus := emailStatus[id := Default];
    }
  }

  /** The listed users have distinct ids, so the page starts well formed. */
  lemma DemoUsersDistinct()
    ensures WellFormedSelection(DemoUsers, [])
  {
    assert UserIds(DemoUsers) == [1, 2, 3];
  }
}
